/** What the primitive changes keep of the whole scheduler state, and what the invariant means. */
module ChainSteps {
  import opened ChainModel
  import opened ChainLemmas

  // ----- helpers

  ghost predicate SameStructure(s: Core, s': Core) {
    && s.chains.Keys == s'.chains.Keys
    && s.tasks.Keys == s'.tasks.Keys
    && (forall c :: c in s.chains ==> SameTasks(s.chains[c].nodes, s'.chains[c].nodes))
    && (forall t :: t in s.tasks ==> s'.tasks[t].chains == s.tasks[t].chains)
    && (forall t :: t in s.tasks ==> s'.tasks[t].state == s.tasks[t].state || (s.tasks[t].state == Pending && s'.tasks[t].state == Active))
  }

  /** The same tasks, in the same chains. */
  ghost predicate SameChains(s: Core, s': Core) {
    s.tasks.Keys == s'.tasks.Keys && forall t :: t in s.tasks ==> s'.tasks[t].chains == s.tasks[t].chains
  }

  ghost function PendingSet(tasks: map<TaskId, Task>): set<TaskId> {
    set t | t in tasks && tasks[t].state == Pending
  }

  ghost function SetOf(ts: seq<TaskId>): set<TaskId> {
    set t | t in ts
  }

  /** The tasks right after t in the listed chains. */
  ghost function Children(s: Core, t: TaskId, ids: seq<ChainId>): set<TaskId> {
    set c | c in ids && c in s.chains && IndexOf(s.chains[c].nodes, t) + 1 < |s.chains[c].nodes|
      :: s.chains[c].nodes[IndexOf(s.chains[c].nodes, t) + 1].task
  }

  /** The tasks that hold the waiting slots of the listed chains. */
  ghost function Woken(limited: map<ChainId, TaskId>, ids: seq<ChainId>): set<TaskId> {
    set c | c in ids && c in limited :: limited[c]
  }

  function Without(limited: map<ChainId, TaskId>, ids: seq<ChainId>): map<ChainId, TaskId> {
    map c | c in limited && c !in ids :: limited[c]
  }

  lemma BaseMember(s: Core, t: TaskId)
    requires Base(s) && t in s.tasks
    ensures Member(s, t)
    ensures IsActive(s.tasks, t) ==> forall c :: c in s.tasks[t].chains ==> s.chains[c].active > 0
  {
    forall c | c in s.tasks[t].chains ensures c in s.chains && Has(s.chains[c], t) {
      assert LinkAt(s, t, c);
    }
    if IsActive(s.tasks, t) {
      forall c | c in s.tasks[t].chains ensures s.chains[c].active > 0 {
        CountPositive(s.chains[c].nodes, IndexOf(s.chains[c].nodes, t), s.tasks);
      }
    }
  }

  /** A task outside a chain is not one of its nodes. */
  lemma NotANode(s: Core, t: TaskId, c: ChainId)
    requires Base(s) && t in s.tasks && c in s.chains && c !in s.tasks[t].chains
    ensures forall i :: 0 <= i < |s.chains[c].nodes| ==> s.chains[c].nodes[i].task != t
  {
    assert LinkAt(s, t, c);
  }

  // ----- starting a task

  lemma StartOneStructure(s: Core, t: TaskId)
    requires Base(s) && Startable(s, t)
    ensures Member(s, t) && SameStructure(s, StartOne(s, t))
  {
    BaseMember(s, t);
    var s' := StartOne(s, t);
    forall c | c in s.chains ensures SameTasks(s.chains[c].nodes, s'.chains[c].nodes) {
    }
  }

  lemma LinkedSame(s: Core, s': Core)
    requires Linked(s) && SameStructure(s, s')
    ensures Linked(s')
  {
    forall t, c ensures LinkAt(s', t, c) {
      assert LinkAt(s, t, c);
      if c in s.chains {
        SameIndex(s.chains[c].nodes, s'.chains[c].nodes, t);
      }
    }
  }

  lemma StartOneBase(s: Core, t: TaskId)
    requires Base(s) && Startable(s, t)
    ensures Member(s, t) && Base(StartOne(s, t)) && SameStructure(s, StartOne(s, t))
  {
    StartOneStructure(s, t);
    var s' := StartOne(s, t);
    LinkedSame(s, s');
    assert t !in s.pending;
    assert NoDup(s'.pending);
    forall c | c in s'.chains ensures c != 0 && ChainOK(s'.chains[c], s'.tasks) {
      if c in s.tasks[t].chains {
        StartInOK(s.chains[c], s.tasks, t, s'.tasks);
      } else {
        NotANode(s, t, c);
        UntouchedOK(s.chains[c], s.tasks, s'.tasks);
      }
    }
  }

  lemma StartOneBlocked(s: Core, limited: map<ChainId, TaskId>, t: TaskId, x: TaskId)
    requires Base(s) && Startable(s, t) && Member(s, t) && Blocked(s, limited, x) && IsPending(s.tasks, x) && x != t
    ensures Blocked(StartOne(s, t), limited, x) || x in Children(s, t, s.tasks[t].chains)
  {
    var c :| c in s.tasks[x].chains && BlockedBy(s, limited, x, c);
    if c in s.tasks[t].chains {
      StartOneBlockedBy(s, limited, t, x, c);
    } else {
      assert BlockedBy(StartOne(s, t), limited, x, c);
    }
  }

  /** In a chain of the started task. */
  lemma StartOneBlockedBy(s: Core, limited: map<ChainId, TaskId>, t: TaskId, x: TaskId, c: ChainId)
    requires Base(s) && Startable(s, t) && Member(s, t) && IsPending(s.tasks, x) && x != t
    requires c in s.tasks[x].chains && c in s.tasks[t].chains && BlockedBy(s, limited, x, c)
    ensures Blocked(StartOne(s, t), limited, x) || x in Children(s, t, s.tasks[t].chains)
  {
    var s' := StartOne(s, t);
    SameIndex(s.chains[c].nodes, s'.chains[c].nodes, x);
    if StaleParent(s.chains[c], x) && s.chains[c].nodes[IndexOf(s.chains[c].nodes, x) - 1].task == t {
      IndexIs(s.chains[c].nodes, t, IndexOf(s.chains[c].nodes, x) - 1);
    } else {
      assert BlockedBy(s', limited, x, c);
    }
  }

  lemma StartOneLimited(s: Core, limited: map<ChainId, TaskId>, t: TaskId)
    requires Base(s) && LimitedOK(s, limited) && Startable(s, t) && Member(s, t)
    ensures LimitedOK(StartOne(s, t), limited)
  {
    var s' := StartOne(s, t);
    forall c | c in limited
      ensures c in s'.chains && Has(s'.chains[c], limited[c]) && IsPending(s'.tasks, limited[c])
      ensures !StaleParent(s'.chains[c], limited[c]) && s'.chains[c].active == MAX_ACTIVE
    {
      assert c !in s.tasks[t].chains;
      NotANode(s, t, c);
    }
  }

  /** Starting t hands the obligation to try again to the tasks right behind it. */
  lemma StartOneInv(s: Core, limited: map<ChainId, TaskId>, exempt: set<TaskId>, t: TaskId)
    requires Inv(s, limited, exempt) && Startable(s, t)
    ensures Member(s, t) && SameStructure(s, StartOne(s, t))
    ensures Inv(StartOne(s, t), limited, exempt - {t} + Children(s, t, s.tasks[t].chains))
  {
    StartOneBase(s, t);
    StartOneLimited(s, limited, t);
    var s' := StartOne(s, t);
    forall x | IsPending(s'.tasks, x) && x !in exempt - {t} + Children(s, t, s.tasks[t].chains)
      ensures Blocked(s', limited, x)
    {
      StartOneBlocked(s, limited, t, x);
    }
  }

  lemma ChildrenSame(s: Core, s': Core, t: TaskId, ids: seq<ChainId>)
    requires SameStructure(s, s')
    ensures Children(s, t, ids) == Children(s', t, ids)
  {
    forall c | c in s.chains ensures IndexOf(s.chains[c].nodes, t) == IndexOf(s'.chains[c].nodes, t) {
      SameIndex(s.chains[c].nodes, s'.chains[c].nodes, t);
    }
  }

  lemma ExemptMore(s: Core, limited: map<ChainId, TaskId>, e: set<TaskId>, e': set<TaskId>)
    requires Inv(s, limited, e) && e <= e'
    ensures Inv(s, limited, e')
  {
  }

  // ----- a task that cannot start yet

  /** Recording the waiting task of a full chain never drops another one. */
  lemma RecordLimited(s: Core, limited: map<ChainId, TaskId>, exempt: set<TaskId>, t: TaskId, c: ChainId)
    requires Inv(s, limited, exempt) && IsPending(s.tasks, t) && c in s.tasks[t].chains
    requires c in s.chains && !StaleParent(s.chains[c], t) && s.chains[c].active >= MAX_ACTIVE
    ensures c in limited ==> limited[c] == t
    ensures Inv(s, limited[c := t], exempt - {t})
  {
    assert LinkAt(s, t, c);
    if c in limited {
      CandidateUnique(s.chains[c], s.tasks, t, limited[c]);
    }
    var limited' := limited[c := t];
    assert BlockedBy(s, limited', t, c);
    forall x | IsPending(s.tasks, x) && x !in exempt - {t} ensures Blocked(s, limited', x) {
      if x != t {
        var d :| d in s.tasks[x].chains && BlockedBy(s, limited, x, d);
        assert BlockedBy(s, limited', x, d);
      }
    }
  }

  lemma WaitForParent(s: Core, limited: map<ChainId, TaskId>, exempt: set<TaskId>, t: TaskId, c: ChainId)
    requires Inv(s, limited, exempt) && IsPending(s.tasks, t) && c in s.tasks[t].chains
    requires c in s.chains && StaleParent(s.chains[c], t)
    ensures Inv(s, limited, exempt - {t})
  {
    assert BlockedBy(s, limited, t, c);
  }

  // ----- a task that stops being active

  /** The state after a failed task went back to waiting (Pending) or was taken out (Paused). */
  ghost function Failed(s: Core, t: TaskId, st: TaskState): Core
    requires Base(s) && t in s.tasks
  {
    BaseMember(s, t);
    var s' := Inactivated(s, t, true);
    s'.(tasks := s.tasks[t := s.tasks[t].(state := st)])
  }

  ghost function Finished(s: Core, t: TaskId): Core
    requires Base(s) && t in s.tasks
  {
    BaseMember(s, t);
    Removed(Inactivated(s, t, false), t)
  }

  lemma FailedChain(s: Core, t: TaskId, st: TaskState, c: ChainId)
    requires Base(s) && t in s.tasks && st != Active && c in s.chains
    ensures c != 0 && c in Failed(s, t, st).chains && ChainOK(Failed(s, t, st).chains[c], Failed(s, t, st).tasks)
    ensures Failed(s, t, st).chains[c].nodes == s.chains[c].nodes
  {
    BaseMember(s, t);
    var s' := Failed(s, t, st);
    if c in s.tasks[t].chains {
      FailInOK(s.chains[c], s.tasks, t, s'.tasks, st);
    } else {
      NotANode(s, t, c);
      UntouchedOK(s.chains[c], s.tasks, s'.tasks);
    }
  }

  lemma FailedBase(s: Core, t: TaskId, st: TaskState)
    requires Base(s) && t in s.tasks && t !in s.pending && st != Active
    ensures Base(Failed(s, t, st))
  {
    BaseMember(s, t);
    var s' := Failed(s, t, st);
    forall c | c in s'.chains ensures c != 0 && ChainOK(s'.chains[c], s'.tasks) {
      FailedChain(s, t, st, c);
    }
    assert Linked(s') by {
      forall x, c ensures LinkAt(s', x, c) {
        assert LinkAt(s, x, c);
        if c in s.chains {
          FailedChain(s, t, st, c);
        }
      }
    }
  }

  lemma FailedBlocked(s: Core, limited: map<ChainId, TaskId>, t: TaskId, st: TaskState, x: TaskId)
    requires Inv(s, limited, {}) && t in s.tasks && st != Active && x != t && IsPending(s.tasks, x)
    ensures x in Woken(limited, s.tasks[t].chains) || Blocked(Failed(s, t, st), Without(limited, s.tasks[t].chains), x)
  {
    BaseMember(s, t);
    var s' := Failed(s, t, st);
    assert Blocked(s, limited, x);
    var c :| c in s.tasks[x].chains && BlockedBy(s, limited, x, c);
    if StaleParent(s.chains[c], x) {
      assert StaleParent(s'.chains[c], x);
      assert BlockedBy(s', Without(limited, s.tasks[t].chains), x, c);
    } else if c !in s.tasks[t].chains {
      assert BlockedBy(s', Without(limited, s.tasks[t].chains), x, c);
    }
  }

  lemma FailedLimited(s: Core, limited: map<ChainId, TaskId>, t: TaskId, st: TaskState)
    requires Base(s) && LimitedOK(s, limited) && t in s.tasks
    ensures LimitedOK(Failed(s, t, st), Without(limited, s.tasks[t].chains))
  {
    BaseMember(s, t);
    var s' := Failed(s, t, st);
    var limited' := Without(limited, s.tasks[t].chains);
    forall c | c in limited' ensures limited'[c] != t && c in s'.chains && s'.chains[c] == s.chains[c] {
      NotANode(s, t, c);
    }
    forall c | c in limited' ensures IsPending(s'.tasks, limited'[c]) {
      assert IsPending(s.tasks, limited[c]);
    }
  }

  lemma FailedInv(s: Core, limited: map<ChainId, TaskId>, t: TaskId, st: TaskState)
    requires Inv(s, limited, {}) && t in s.tasks && t !in s.pending && st != Active
    ensures Inv(Failed(s, t, st), Without(limited, s.tasks[t].chains),
                if st == Pending then Woken(limited, s.tasks[t].chains) + {t} else Woken(limited, s.tasks[t].chains))
  {
    FailedBase(s, t, st);
    FailedLimited(s, limited, t, st);
    var s' := Failed(s, t, st);
    var ids := s.tasks[t].chains;
    forall x | IsPending(s'.tasks, x) && x !in Woken(limited, ids) && (st == Pending ==> x != t)
      ensures Blocked(s', Without(limited, ids), x)
    {
      FailedBlocked(s, limited, t, st, x);
    }
  }

  lemma RemoveHas(a: seq<ChainNode>, i: nat, b: seq<ChainNode>, x: TaskId)
    requires DistinctTasks(a) && i < |a| && b == a[..i] + a[i + 1..]
    ensures x == a[i].task ==> IndexOf(b, x) == |b|
    ensures x != a[i].task ==> (IndexOf(b, x) < |b| <==> IndexOf(a, x) < |a|)
    ensures x != a[i].task && IndexOf(a, x) < |a| ==>
      IndexOf(b, x) == if IndexOf(a, x) < i then IndexOf(a, x) else IndexOf(a, x) - 1
  {
    RemoveAt(a, i, b);
    var k := IndexOf(b, x);
    if k < |b| {
      assert b[k] == a[Skip(i, k)];
      IndexIs(a, x, Skip(i, k));
    }
    if IndexOf(a, x) < |a| && x != a[i].task {
      RemoveKeeps(a, i, b, x);
    }
  }

  lemma RemoveKeeps(a: seq<ChainNode>, i: nat, b: seq<ChainNode>, x: TaskId)
    requires DistinctTasks(a) && i < |a| && b == a[..i] + a[i + 1..]
    requires IndexOf(a, x) < |a| && x != a[i].task
    ensures IndexOf(b, x) == if IndexOf(a, x) < i then IndexOf(a, x) else IndexOf(a, x) - 1
  {
    RemoveAt(a, i, b);
    var j := if IndexOf(a, x) < i then IndexOf(a, x) else IndexOf(a, x) - 1;
    assert b[j] == a[Skip(i, j)];
    IndexIs(b, x, j);
  }

  lemma FinishedChain(s: Core, t: TaskId, c: ChainId)
    requires Base(s) && t in s.tasks && c in Finished(s, t).chains
    ensures c != 0 && c in s.chains && ChainOK(Finished(s, t).chains[c], Finished(s, t).tasks)
  {
    BaseMember(s, t);
    var s' := Finished(s, t);
    if c in s.tasks[t].chains {
      assert |s.chains[c].nodes| > 1;
      FinishInOK(s.chains[c], s.tasks, t, s'.tasks);
    } else {
      NotANode(s, t, c);
      UntouchedOK(s.chains[c], s.tasks, s'.tasks);
    }
  }

  lemma FinishedHas(s: Core, t: TaskId, c: ChainId, x: TaskId)
    requires Base(s) && t in s.tasks && c in Finished(s, t).chains
    ensures c in s.chains
    ensures Has(Finished(s, t).chains[c], x) == (x != t && Has(s.chains[c], x))
  {
    BaseMember(s, t);
    var s' := Finished(s, t);
    if c in s.tasks[t].chains {
      RemoveHas(s.chains[c].nodes, IndexOf(s.chains[c].nodes, t), s'.chains[c].nodes, x);
    } else {
      NotANode(s, t, c);
    }
  }

  /** Only the finished task's own chains can disappear, and only when no other task is in them. */
  lemma FinishedKeeps(s: Core, t: TaskId, c: ChainId, x: TaskId)
    requires Base(s) && t in s.tasks && c in s.chains && Has(s.chains[c], x) && x != t
    ensures c in Finished(s, t).chains
  {
    BaseMember(s, t);
  }

  lemma FinishedBase(s: Core, t: TaskId)
    requires Base(s) && t in s.tasks && t !in s.pending
    ensures Base(Finished(s, t))
  {
    var s' := Finished(s, t);
    forall c | c in s'.chains ensures c != 0 && ChainOK(s'.chains[c], s'.tasks) {
      FinishedChain(s, t, c);
    }
    FinishedLinked(s, t);
  }

  lemma FinishedLinked(s: Core, t: TaskId)
    requires Base(s) && t in s.tasks
    ensures Linked(Finished(s, t))
  {
    var s' := Finished(s, t);
    forall x, c ensures LinkAt(s', x, c) {
      assert LinkAt(s, x, c);
      if c in s'.chains {
        FinishedHas(s, t, c, x);
      } else if c in s.chains && x != t && Has(s.chains[c], x) {
        FinishedKeeps(s, t, c, x);
      }
    }
  }

  /** Removing t leaves a stale predecessor in place, unless that predecessor is t itself. */
  lemma FinishedStale(s: Core, t: TaskId, c: ChainId, x: TaskId)
    requires Base(s) && t in s.tasks && c in s.tasks[t].chains && x != t && c in s.chains && StaleParent(s.chains[c], x)
    ensures c in Finished(s, t).chains
    ensures x in Children(s, t, s.tasks[t].chains) || StaleParent(Finished(s, t).chains[c], x)
  {
    FinishedKeeps(s, t, c, x);
    FinishedNodes(s, t, c);
    StaleAfter(s.chains[c], Finished(s, t).chains[c], t, x);
    if IsChild(s.chains[c], t, x) {
      assert c in s.tasks[t].chains && c in s.chains;
    }
  }

  /** A chain of the finished task loses its node and keeps its generation. */
  lemma FinishedNodes(s: Core, t: TaskId, c: ChainId)
    requires Base(s) && t in s.tasks && c in s.tasks[t].chains && c in Finished(s, t).chains
    ensures c in s.chains && DistinctTasks(s.chains[c].nodes) && Has(s.chains[c], t)
    ensures var a, i := s.chains[c].nodes, IndexOf(s.chains[c].nodes, t);
      Finished(s, t).chains[c].nodes == a[..i] + a[i + 1..] && Finished(s, t).chains[c].generation == s.chains[c].generation
  {
    BaseMember(s, t);
  }

  lemma StaleAfter(ch: ChainInfo, ch': ChainInfo, t: TaskId, x: TaskId)
    requires DistinctTasks(ch.nodes) && Has(ch, t) && x != t && StaleParent(ch, x) && ch'.generation == ch.generation
    requires var i := IndexOf(ch.nodes, t); ch'.nodes == ch.nodes[..i] + ch.nodes[i + 1..]
    ensures IsChild(ch, t, x) || StaleParent(ch', x)
  {
    var i := IndexOf(ch.nodes, t);
    if IndexOf(ch.nodes, x) != i + 1 {
      SamePredecessor(ch.nodes, i, ch'.nodes, x);
    }
  }

  /** Removing a node leaves the predecessor of every task but the next one. */
  lemma SamePredecessor(a: seq<ChainNode>, i: nat, b: seq<ChainNode>, x: TaskId)
    requires DistinctTasks(a) && i < |a| && b == a[..i] + a[i + 1..] && x != a[i].task
    requires 0 < IndexOf(a, x) < |a| && IndexOf(a, x) != i + 1
    ensures 0 < IndexOf(b, x) < |b| && b[IndexOf(b, x) - 1] == a[IndexOf(a, x) - 1]
  {
    RemoveHas(a, i, b, x);
    RemoveAt(a, i, b);
    IndexIs(a, x, IndexOf(a, x));
    assert b[IndexOf(b, x) - 1] == a[Skip(i, IndexOf(b, x) - 1)];
  }

  lemma FinishedBlocked(s: Core, limited: map<ChainId, TaskId>, t: TaskId, x: TaskId)
    requires Inv(s, limited, {}) && t in s.tasks && x != t && IsPending(s.tasks, x)
    ensures x in Woken(limited, s.tasks[t].chains) || x in Children(s, t, s.tasks[t].chains)
            || Blocked(Finished(s, t), Without(limited, s.tasks[t].chains), x)
  {
    BaseMember(s, t);
    var s' := Finished(s, t);
    var limited' := Without(limited, s.tasks[t].chains);
    assert Blocked(s, limited, x);
    var c :| c in s.tasks[x].chains && BlockedBy(s, limited, x, c);
    assert c in s'.tasks[x].chains;
    if c !in s.tasks[t].chains {
      assert s'.chains[c] == s.chains[c];
      assert BlockedBy(s', limited', x, c);
    } else if StaleParent(s.chains[c], x) {
      FinishedStale(s, t, c, x);
      assert StaleParent(s'.chains[c], x) ==> BlockedBy(s', limited', x, c);
    }
  }

  lemma FinishedLimited(s: Core, limited: map<ChainId, TaskId>, t: TaskId)
    requires Base(s) && LimitedOK(s, limited) && t in s.tasks
    ensures LimitedOK(Finished(s, t), Without(limited, s.tasks[t].chains))
  {
    BaseMember(s, t);
    var s' := Finished(s, t);
    var limited' := Without(limited, s.tasks[t].chains);
    forall c | c in limited' ensures limited'[c] != t && c in s'.chains && s'.chains[c] == s.chains[c] {
      NotANode(s, t, c);
    }
    forall c | c in limited' ensures IsPending(s'.tasks, limited'[c]) {
      assert IsPending(s.tasks, limited[c]);
    }
  }

  lemma FinishedInv(s: Core, limited: map<ChainId, TaskId>, t: TaskId)
    requires Inv(s, limited, {}) && t in s.tasks && t !in s.pending
    ensures Inv(Finished(s, t), Without(limited, s.tasks[t].chains),
                Woken(limited, s.tasks[t].chains) + Children(s, t, s.tasks[t].chains))
  {
    FinishedBase(s, t);
    FinishedLimited(s, limited, t);
    var s' := Finished(s, t);
    var ids := s.tasks[t].chains;
    forall x | IsPending(s'.tasks, x) && x !in Woken(limited, ids) + Children(s, t, ids)
      ensures Blocked(s', Without(limited, ids), x)
    {
      FinishedBlocked(s, limited, t, x);
    }
  }

  // ----- a new task

  lemma AppendIndex(a: seq<ChainNode>, n: ChainNode, x: TaskId)
    requires IndexOf(a, n.task) == |a|
    ensures IndexOf(a + [n], x) == if x == n.task then |a| else if IndexOf(a, x) < |a| then IndexOf(a, x) else |a| + 1
  {
    var b := a + [n];
    assert forall i :: 0 <= i < |a| ==> b[i] == a[i];
    assert b[|a|] == n;
  }

  lemma CreatedChain(s: Core, t: TaskId, ids: seq<ChainId>, c: ChainId)
    requires Base(s) && t !in s.tasks && NoDup(ids) && 0 !in ids && c in Created(s, t, ids).chains
    ensures c != 0 && ChainOK(Created(s, t, ids).chains[c], Created(s, t, ids).tasks)
  {
    var s' := Created(s, t, ids);
    var ch := ChainOrNew(s, c);
    if c in s.chains {
      forall i | 0 <= i < |ch.nodes| ensures ch.nodes[i].task in s.tasks {
        IndexIs(ch.nodes, ch.nodes[i].task, i);
        assert LinkAt(s, ch.nodes[i].task, c);
      }
    }
    if c in ids {
      AppendOK(ch, s.tasks, t, s'.tasks, s'.tasks[t]);
    } else {
      UntouchedOK(s.chains[c], s.tasks, s'.tasks);
    }
  }

  lemma CreatedHas(s: Core, t: TaskId, ids: seq<ChainId>, c: ChainId, x: TaskId)
    requires Base(s) && t !in s.tasks && c in Created(s, t, ids).chains
    ensures Has(Created(s, t, ids).chains[c], x) <==> ((x == t && c in ids) || (c in s.chains && Has(s.chains[c], x)))
  {
    assert LinkAt(s, t, c);
    if c in ids {
      AppendIndex(ChainOrNew(s, c).nodes, ChainNode(t, 0), x);
    }
  }

  lemma CreatedBase(s: Core, t: TaskId, ids: seq<ChainId>)
    requires Base(s) && t !in s.tasks && NoDup(ids) && 0 !in ids
    ensures Base(Created(s, t, ids))
  {
    var s' := Created(s, t, ids);
    forall c | c in s'.chains ensures c != 0 && ChainOK(s'.chains[c], s'.tasks) {
      CreatedChain(s, t, ids, c);
    }
    CreatedLinked(s, t, ids);
  }

  lemma CreatedLinked(s: Core, t: TaskId, ids: seq<ChainId>)
    requires Base(s) && t !in s.tasks
    ensures Linked(Created(s, t, ids))
  {
    var s' := Created(s, t, ids);
    forall x, c ensures LinkAt(s', x, c) {
      assert LinkAt(s, x, c);
      if c in s'.chains {
        CreatedHas(s, t, ids, c, x);
      }
    }
  }

  lemma CreatedSame(s: Core, t: TaskId, ids: seq<ChainId>, x: TaskId, c: ChainId)
    requires Base(s) && t !in s.tasks && c in s.chains && Has(s.chains[c], x)
    ensures x != t && c in Created(s, t, ids).chains && Has(Created(s, t, ids).chains[c], x)
    ensures StaleParent(Created(s, t, ids).chains[c], x) == StaleParent(s.chains[c], x)
    ensures Created(s, t, ids).chains[c].active == s.chains[c].active
  {
    assert LinkAt(s, t, c);
    if c in ids {
      AppendIndex(s.chains[c].nodes, ChainNode(t, 0), x);
    }
  }

  lemma CreatedInv(s: Core, limited: map<ChainId, TaskId>, t: TaskId, ids: seq<ChainId>)
    requires Inv(s, limited, {}) && t !in s.tasks && NoDup(ids) && 0 !in ids
    ensures Inv(Created(s, t, ids), limited, {t})
  {
    CreatedBase(s, t, ids);
    var s' := Created(s, t, ids);
    forall c | c in limited
      ensures c in s'.chains && Has(s'.chains[c], limited[c]) && IsPending(s'.tasks, limited[c])
      ensures !StaleParent(s'.chains[c], limited[c]) && s'.chains[c].active == MAX_ACTIVE
    {
      CreatedSame(s, t, ids, limited[c], c);
    }
    forall x | IsPending(s'.tasks, x) && x != t ensures Blocked(s', limited, x) {
      assert Blocked(s, limited, x);
      var c :| c in s.tasks[x].chains && BlockedBy(s, limited, x, c);
      CreatedSame(s, t, ids, x, c);
      assert BlockedBy(s', limited, x, c);
    }
  }
}

/** Runs of starts, the lists the scheduler builds on the way, and the order of creation. */
module ChainRuns {
  import opened ChainModel
  import opened ChainLemmas
  import opened ChainSteps

  lemma SameStructureTransitive(a: Core, b: Core, c: Core)
    requires SameStructure(a, b) && SameStructure(b, c)
    ensures SameStructure(a, c)
  {
  }

  lemma PendingShrinks(s: Core, s': Core)
    requires SameStructure(s, s')
    ensures PendingSet(s'.tasks) <= PendingSet(s.tasks)
  {
  }

  // ----- the loops over the chains of a task

  ghost function InactivatedChains(chains: map<ChainId, ChainInfo>, ids: seq<ChainId>, t: TaskId, wasActive: bool, failed: bool): map<ChainId, ChainInfo>
    requires forall c :: c in ids ==> c in chains && Has(chains[c], t) && (wasActive ==> chains[c].active > 0)
  {
    map c | c in chains :: if c in ids then InactivateIn(chains[c], t, wasActive, failed) else chains[c]
  }

  lemma InactivateStep(chains: map<ChainId, ChainInfo>, limited: map<ChainId, TaskId>, ids: seq<ChainId>, k: nat, t: TaskId, wasActive: bool, failed: bool)
    requires k < |ids| && ids[k] !in ids[..k]
    requires forall c :: c in ids ==> c in chains && Has(chains[c], t) && (wasActive ==> chains[c].active > 0)
    ensures InactivatedChains(chains, ids[..k], t, wasActive, failed)[ids[k]] == chains[ids[k]]
    ensures InactivatedChains(chains, ids[..k + 1], t, wasActive, failed)
         == InactivatedChains(chains, ids[..k], t, wasActive, failed)[ids[k] := InactivateIn(chains[ids[k]], t, wasActive, failed)]
    ensures Without(limited, ids[..k + 1]) == map d | d in Without(limited, ids[..k]) && d != ids[k] :: Without(limited, ids[..k])[d]
    ensures WakeList(chains, limited, t, ids[..k + 1]) == WakeList(chains, limited, t, ids[..k]) +
      WakeOf(InactivatedChains(chains, ids[..k], t, wasActive, failed), Without(limited, ids[..k]), t, ids[k])
  {
    assert ids[..k + 1] == ids[..k] + [ids[k]];
    assert ids[..k + 1][..k] == ids[..k];
  }

  ghost function WithNew(s: Core, ids: seq<ChainId>): map<ChainId, ChainInfo> {
    map c | c in s.chains.Keys + (set i | 0 <= i < |ids| :: ids[i]) :: ChainOrNew(s, c)
  }

  lemma WithNewStep(s: Core, ids: seq<ChainId>, k: nat)
    requires k < |ids|
    ensures WithNew(s, ids[..k + 1]) == WithNew(s, ids[..k])[ids[k] := ChainOrNew(s, ids[k])]
  {
    assert forall c :: c in ids[..k + 1] <==> c in ids[..k] || c == ids[k];
    assert forall c :: c in WithNew(s, ids[..k + 1]) <==> c in s.chains || c in ids[..k + 1];
    assert forall c :: c in WithNew(s, ids[..k]) <==> c in s.chains || c in ids[..k];
  }

  /** The new task appended to the first k of its chains. */
  ghost function WithNodes(s: Core, ids: seq<ChainId>, t: TaskId, k: nat): map<ChainId, ChainInfo>
    requires k <= |ids|
  {
    map c | c in s.chains.Keys + (set i | 0 <= i < |ids| :: ids[i]) ::
      if c in ids[..k] then ChainOrNew(s, c).(nodes := ChainOrNew(s, c).nodes + [ChainNode(t, 0)]) else ChainOrNew(s, c)
  }

  lemma WithNodesStep(s: Core, ids: seq<ChainId>, t: TaskId, k: nat)
    requires k < |ids| && NoDup(ids)
    ensures ids[k] in WithNodes(s, ids, t, k) && WithNodes(s, ids, t, k)[ids[k]] == ChainOrNew(s, ids[k])
    ensures WithNodes(s, ids, t, k + 1)
         == WithNodes(s, ids, t, k)[ids[k] := ChainOrNew(s, ids[k]).(nodes := ChainOrNew(s, ids[k]).nodes + [ChainNode(t, 0)])]
    ensures WithNodes(s, ids, t, 0) == WithNew(s, ids)
    ensures WithNodes(s, ids, t, |ids|) == Created(s, t, ids).chains
  {
    assert ids[k] !in ids[..k];
    assert forall c :: c in ids[..k + 1] <==> c in ids[..k] || c == ids[k];
    assert ids[..|ids|] == ids;
  }

  lemma {:induction false} RunConcat(s: Core, a: seq<TaskId>, b: seq<TaskId>)
    requires LegalRun(s, a) && LegalRun(AfterRun(s, a), b)
    ensures LegalRun(s, a + b) && AfterRun(s, a + b) == AfterRun(AfterRun(s, a), b)
    decreases |a|
  {
    if a == [] {
      assert a + b == b;
    } else {
      assert (a + b)[1..] == a[1..] + b;
      RunConcat(StartOne(s, a[0]), a[1..], b);
    }
  }

  lemma RunOne(s: Core, t: TaskId)
    requires Member(s, t) && Startable(s, t)
    ensures LegalRun(s, [t]) && AfterRun(s, [t]) == StartOne(s, t)
  {
    assert [t][1..] == [];
    assert LegalRun(StartOne(s, t), []);
  }

  // ----- lists of tasks to try again

  function WakeOf(chains: map<ChainId, ChainInfo>, limited: map<ChainId, TaskId>, t: TaskId, c: ChainId): seq<TaskId> {
    (if c in limited && limited[c] != t then [limited[c]] else [])
    + (if c in chains && chains[c].nodes != [] && chains[c].nodes[0].task != t then [chains[c].nodes[0].task] else [])
  }

  /** What an inactivated task leaves to be tried: per chain, the holder of the slot and the first task. */
  function WakeList(chains: map<ChainId, ChainInfo>, limited: map<ChainId, TaskId>, t: TaskId, ids: seq<ChainId>): seq<TaskId> {
    if ids == [] then []
    else WakeList(chains, limited, t, ids[..|ids| - 1]) + WakeOf(chains, limited, t, ids[|ids| - 1])
  }

  function ChildOf(chains: map<ChainId, ChainInfo>, t: TaskId, c: ChainId): seq<TaskId> {
    if c in chains then
      var i := IndexOf(chains[c].nodes, t);
      if i + 1 < |chains[c].nodes| then [chains[c].nodes[i + 1].task] else []
    else []
  }

  function ChildList(chains: map<ChainId, ChainInfo>, t: TaskId, ids: seq<ChainId>): seq<TaskId> {
    if ids == [] then []
    else ChildList(chains, t, ids[..|ids| - 1]) + ChildOf(chains, t, ids[|ids| - 1])
  }

  function ParentOf(chains: map<ChainId, ChainInfo>, t: TaskId, c: ChainId): seq<TaskId> {
    if c in chains then
      var i := IndexOf(chains[c].nodes, t);
      if 0 < i < |chains[c].nodes| then [chains[c].nodes[i - 1].task] else []
    else []
  }

  function ParentList(chains: map<ChainId, ChainInfo>, t: TaskId, ids: seq<ChainId>): seq<TaskId> {
    if ids == [] then []
    else ParentList(chains, t, ids[..|ids| - 1]) + ParentOf(chains, t, ids[|ids| - 1])
  }

  lemma {:induction false} WakeCovers(chains: map<ChainId, ChainInfo>, limited: map<ChainId, TaskId>, t: TaskId, ids: seq<ChainId>)
    ensures forall x :: x in Woken(limited, ids) && x != t ==> x in WakeList(chains, limited, t, ids)
    ensures t !in WakeList(chains, limited, t, ids)
  {
    if ids != [] {
      WakeCovers(chains, limited, t, ids[..|ids| - 1]);
      forall x | x in Woken(limited, ids) && x != t ensures x in WakeList(chains, limited, t, ids) {
        var c :| c in ids && c in limited && limited[c] == x;
        if c != ids[|ids| - 1] {
          assert c in ids[..|ids| - 1];
          assert x in Woken(limited, ids[..|ids| - 1]);
        }
      }
    }
  }

  lemma {:induction false} WakeKnown(s: Core, limited: map<ChainId, TaskId>, t: TaskId, ids: seq<ChainId>)
    requires Base(s) && LimitedOK(s, limited)
    ensures forall x :: x in WakeList(s.chains, limited, t, ids) ==> x in s.tasks
  {
    if ids != [] {
      WakeKnown(s, limited, t, ids[..|ids| - 1]);
      var c := ids[|ids| - 1];
      if c in s.chains {
        assert IndexOf(s.chains[c].nodes, s.chains[c].nodes[0].task) == 0;
        assert LinkAt(s, s.chains[c].nodes[0].task, c);
      }
    }
  }

  lemma {:induction false} ChildrenListed(s: Core, t: TaskId, ids: seq<ChainId>)
    requires Base(s)
    ensures forall x :: x in Children(s, t, ids) <==> x in ChildList(s.chains, t, ids)
    ensures forall x :: x in ChildList(s.chains, t, ids) ==> x in s.tasks && x != t
  {
    if ids != [] {
      var front, c := ids[..|ids| - 1], ids[|ids| - 1];
      ChildrenListed(s, t, front);
      forall x ensures x in Children(s, t, ids) <==> x in Children(s, t, front) || x in ChildOf(s.chains, t, c) {
        if x in Children(s, t, ids) {
          var d :| d in ids && d in s.chains && IndexOf(s.chains[d].nodes, t) + 1 < |s.chains[d].nodes|
            && s.chains[d].nodes[IndexOf(s.chains[d].nodes, t) + 1].task == x;
          assert d in front || d == c;
        }
      }
      if c in s.chains && IndexOf(s.chains[c].nodes, t) + 1 < |s.chains[c].nodes| {
        ChildKnown(s, t, c);
      }
    }
  }

  lemma ChildrenTail(s: Core, t: TaskId, ids: seq<ChainId>, k: nat)
    requires k < |ids|
    ensures Children(s, t, ids[k..]) <= Children(s, t, ids[k + 1..]) + SetOf(ChildOf(s.chains, t, ids[k]))
  {
    assert ids[k..] == [ids[k]] + ids[k + 1..];
  }

  lemma ChildTaken(s: Core, t: TaskId, ids: seq<ChainId>, k: nat, rest: set<TaskId>)
    requires k < |ids|
    ensures rest + Children(s, t, ids[k..]) - SetOf(ChildOf(s.chains, t, ids[k])) <= rest + Children(s, t, ids[k + 1..])
  {
    ChildrenTail(s, t, ids, k);
  }

  lemma ChildKnown(s: Core, t: TaskId, c: ChainId)
    requires Base(s) && c in s.chains && IndexOf(s.chains[c].nodes, t) + 1 < |s.chains[c].nodes|
    ensures s.chains[c].nodes[IndexOf(s.chains[c].nodes, t) + 1].task in s.tasks
    ensures s.chains[c].nodes[IndexOf(s.chains[c].nodes, t) + 1].task != t
  {
    var i := IndexOf(s.chains[c].nodes, t) + 1;
    IndexIs(s.chains[c].nodes, s.chains[c].nodes[i].task, i);
    assert LinkAt(s, s.chains[c].nodes[i].task, c);
  }

  lemma {:induction false} ChildListSame(chains: map<ChainId, ChainInfo>, chains': map<ChainId, ChainInfo>, t: TaskId, ids: seq<ChainId>)
    requires chains.Keys == chains'.Keys && forall c :: c in chains ==> chains[c].nodes == chains'[c].nodes
    ensures ChildList(chains, t, ids) == ChildList(chains', t, ids)
  {
    if ids != [] {
      ChildListSame(chains, chains', t, ids[..|ids| - 1]);
    }
  }

  // ----- creation order

  lemma OrderSame(s: Core, s': Core, born: map<TaskId, nat>)
    requires InCreationOrder(s, born) && SameStructure(s, s')
    ensures InCreationOrder(s', born)
  {
  }

  lemma OrderFailed(s: Core, t: TaskId, st: TaskState, born: map<TaskId, nat>)
    requires Base(s) && t in s.tasks && InCreationOrder(s, born)
    ensures InCreationOrder(Failed(s, t, st), born)
  {
    BaseMember(s, t);
    var s' := Failed(s, t, st);
    assert forall c :: c in s'.chains ==> s'.chains[c].nodes == s.chains[c].nodes;
  }

  lemma OrderFinished(s: Core, t: TaskId, born: map<TaskId, nat>)
    requires Base(s) && t in s.tasks && InCreationOrder(s, born)
    ensures InCreationOrder(Finished(s, t), born)
  {
    BaseMember(s, t);
    var s' := Finished(s, t);
    forall c | c in s'.chains ensures Ascending(s'.chains[c].nodes, born) {
      if c in s.tasks[t].chains {
        RemoveAscending(s.chains[c].nodes, IndexOf(s.chains[c].nodes, t), s'.chains[c].nodes, born);
      }
    }
  }

  lemma RemoveAscending(a: seq<ChainNode>, i: nat, b: seq<ChainNode>, born: map<TaskId, nat>)
    requires i < |a| && b == a[..i] + a[i + 1..] && Ascending(a, born)
    ensures Ascending(b, born)
  {
    RemoveAt(a, i, b);
    forall j, k | 0 <= j < k < |b| ensures born[b[j].task] < born[b[k].task] {
      assert born[a[Skip(i, j)].task] < born[a[Skip(i, k)].task];
    }
  }

  lemma OrderCreated(s: Core, t: TaskId, ids: seq<ChainId>, born: map<TaskId, nat>, clock: nat)
    requires Base(s) && t !in s.tasks && InCreationOrder(s, born)
    requires forall x :: x in born ==> born[x] < clock
    ensures InCreationOrder(Created(s, t, ids), born[t := clock])
  {
    var s' := Created(s, t, ids);
    forall c, i | c in s.chains && 0 <= i < |s.chains[c].nodes|
      ensures s.chains[c].nodes[i].task in s.tasks && s.chains[c].nodes[i].task != t
    {
      var x := s.chains[c].nodes[i].task;
      IndexIs(s.chains[c].nodes, x, i);
      assert LinkAt(s, x, c);
    }
  }

  lemma CreatedChains(s: Core, t: TaskId, ids: seq<ChainId>, s': Core)
    requires SameStructure(Created(s, t, ids), s') && t !in s.tasks
    ensures s'.tasks.Keys == s.tasks.Keys + {t} && s'.tasks[t].chains == ids
    ensures forall x :: x in s.tasks ==> s'.tasks[x].chains == s.tasks[x].chains
  {
  }

  // ----- what each operation has ready for the tries that end it

  lemma CreatedReady(s: Core, limited: map<ChainId, TaskId>, t: TaskId, ids: seq<ChainId>, born: map<TaskId, nat>, clock: nat)
    requires Inv(s, limited, {}) && t !in s.tasks && NoDup(ids) && 0 !in ids
    requires InCreationOrder(s, born) && forall x :: x in born ==> born[x] < clock
    ensures Inv(Created(s, t, ids), limited, {t}) && InCreationOrder(Created(s, t, ids), born[t := clock])
  {
    CreatedInv(s, limited, t, ids);
    OrderCreated(s, t, ids, born, clock);
  }

  /** After a failure only the tasks queued for a try may be startable. */
  lemma FailedReady(s: Core, limited: map<ChainId, TaskId>, t: TaskId, st: TaskState, born: map<TaskId, nat>)
    requires Inv(s, limited, {}) && t in s.tasks && t !in s.pending && st != Active && InCreationOrder(s, born)
    ensures var ids := s.tasks[t].chains;
      var toStart := WakeList(s.chains, limited, t, ids) + (if st == Pending then [t] else []);
      && (forall x :: x in toStart ==> x in Failed(s, t, st).tasks)
      && Inv(Failed(s, t, st), Without(limited, ids), SetOf(toStart))
    ensures InCreationOrder(Failed(s, t, st), born)
  {
    var ids := s.tasks[t].chains;
    var toStart := WakeList(s.chains, limited, t, ids) + (if st == Pending then [t] else []);
    FailedInv(s, limited, t, st);
    WakeCovers(s.chains, limited, t, ids);
    WakeKnown(s, limited, t, ids);
    OrderFailed(s, t, st, born);
    if st == Pending {
      ExemptMore(Failed(s, t, st), Without(limited, ids), Woken(limited, ids) + {t}, SetOf(toStart));
    } else {
      SettleExempt(Failed(s, t, st), Without(limited, ids), Woken(limited, ids), t, toStart);
    }
  }

  lemma FinishedReady(s: Core, limited: map<ChainId, TaskId>, t: TaskId, born: map<TaskId, nat>)
    requires Inv(s, limited, {}) && t in s.tasks && t !in s.pending && InCreationOrder(s, born)
    ensures var toStart := WakeList(s.chains, limited, t, s.tasks[t].chains) + ChildList(s.chains, t, s.tasks[t].chains);
      && (forall x :: x in toStart ==> x in Finished(s, t).tasks)
      && Inv(Finished(s, t), Without(limited, s.tasks[t].chains), SetOf(toStart))
    ensures InCreationOrder(Finished(s, t), born)
  {
    var ids := s.tasks[t].chains;
    FinishedInv(s, limited, t);
    WakeCovers(s.chains, limited, t, ids);
    WakeKnown(s, limited, t, ids);
    ChildrenListed(s, t, ids);
    OrderFinished(s, t, born);
    var toStart := WakeList(s.chains, limited, t, ids) + ChildList(s.chains, t, ids);
    SettleExempt(Finished(s, t), Without(limited, ids), Woken(limited, ids) + Children(s, t, ids), t, toStart);
  }

  // ----- what the invariant means

  /** At rest every waiting task has a chain in which its predecessor is not current or ten tasks are active. */
  lemma NothingStartable(s: Core, limited: map<ChainId, TaskId>, t: TaskId)
    requires Inv(s, limited, {})
    ensures !Startable(s, t)
    ensures IsPending(s.tasks, t) ==>
      exists c :: c in s.tasks[t].chains && c in s.chains && (StaleParent(s.chains[c], t) || s.chains[c].active == MAX_ACTIVE)
  {
    if IsPending(s.tasks, t) {
      assert Blocked(s, limited, t);
      var c :| c in s.tasks[t].chains && BlockedBy(s, limited, t, c);
      assert ChainOK(s.chains[c], s.tasks);
    }
  }

  lemma {:induction false} EarliestExists(tasks: set<TaskId>, born: map<TaskId, nat>) returns (t: TaskId)
    requires tasks != {} && forall x :: x in tasks ==> x in born
    ensures t in tasks && forall x :: x in tasks ==> born[t] <= born[x]
    decreases tasks
  {
    t :| t in tasks;
    if tasks != {t} {
      var u := EarliestExists(tasks - {t}, born);
      if born[u] < born[t] {
        t := u;
      }
    }
  }

  // ----- what start_next_task hands out

  /** By the lists of the tasks alone: x is a task of chain c. */
  predicate InChain(s: Core, x: TaskId, c: ChainId) { x in s.tasks && c in s.tasks[x].chains }

  ghost predicate IsFirst(s: Core, born: map<TaskId, nat>, t: TaskId, c: ChainId)
    requires t in born && forall x :: x in s.tasks ==> x in born
  {
    forall x :: InChain(s, x, c) ==> born[x] >= born[t]
  }

  /** p was created before t, and no present task of the chain between them. */
  ghost predicate IsPredecessor(s: Core, born: map<TaskId, nat>, p: TaskId, t: TaskId, c: ChainId)
    requires t in born && forall x :: x in s.tasks ==> x in born
  {
    && InChain(s, p, c) && born[p] < born[t]
    && forall x :: InChain(s, x, c) && born[x] < born[t] ==> born[x] <= born[p]
  }

  /** at: the positions, in order, of the chains of ids in which t is not the first; parents: its predecessors in these. */
  ghost predicate ParentsAt(s: Core, born: map<TaskId, nat>, t: TaskId, ids: seq<ChainId>, parents: seq<TaskId>, at: seq<nat>)
    requires t in born && forall x :: x in s.tasks ==> x in born
  {
    && |at| == |parents|
    && (forall i, j :: 0 <= i < j < |at| ==> at[i] < at[j])
    && (forall j :: 0 <= j < |at| ==> at[j] < |ids| && IsPredecessor(s, born, parents[j], t, ids[at[j]]))
    && (forall k :: 0 <= k < |ids| ==> (k in at <==> !IsFirst(s, born, t, ids[k])))
  }

  /** The predecessors of t, in the order of its chains. */
  ghost predicate AreParents(s: Core, born: map<TaskId, nat>, t: TaskId, parents: seq<TaskId>) {
    t in s.tasks && (forall x :: x in s.tasks ==> x in born)
    && exists at :: ParentsAt(s, born, t, s.tasks[t].chains, parents, at)
  }

  /** A chain lists exactly its tasks. */
  lemma NodesAreTasks(s: Core, c: ChainId, x: TaskId)
    requires Base(s)
    ensures InChain(s, x, c) <==> c in s.chains && exists i :: 0 <= i < |s.chains[c].nodes| && s.chains[c].nodes[i].task == x
  {
    assert LinkAt(s, x, c);
    if InChain(s, x, c) {
      assert s.chains[c].nodes[IndexOf(s.chains[c].nodes, x)].task == x;
    }
  }

  lemma EarlierIsBefore(nodes: seq<ChainNode>, born: map<TaskId, nat>, k: nat, i: nat)
    requires Ascending(nodes, born) && k < |nodes| && i < |nodes| && born[nodes[k].task] < born[nodes[i].task]
    ensures k < i && born[nodes[k].task] <= born[nodes[i - 1].task]
  {
  }

  lemma ParentIs(s: Core, born: map<TaskId, nat>, t: TaskId, c: ChainId)
    requires Base(s) && InCreationOrder(s, born) && InChain(s, t, c)
    ensures var p := ParentOf(s.chains, t, c);
      if IsFirst(s, born, t, c) then p == [] else |p| == 1 && IsPredecessor(s, born, p[0], t, c)
  {
    NodesAreTasks(s, c, t);
    var nodes := s.chains[c].nodes;
    var i := IndexOf(nodes, t);
    assert Ascending(nodes, born);
    if i > 0 {
      NodesAreTasks(s, c, nodes[i - 1].task);
      assert born[nodes[i - 1].task] < born[nodes[i].task];
    }
    forall x | InChain(s, x, c) && born[x] < born[t] ensures i > 0 && born[x] <= born[nodes[i - 1].task] {
      NodesAreTasks(s, c, x);
      var k :| 0 <= k < |nodes| && nodes[k].task == x;
      EarlierIsBefore(nodes, born, k, i);
    }
  }

  /** One more chain at the end. */
  lemma ParentsMore(s: Core, born: map<TaskId, nat>, t: TaskId, ids: seq<ChainId>, c: ChainId, parents: seq<TaskId>, at: seq<nat>, p: TaskId)
    requires t in born && (forall x :: x in s.tasks ==> x in born) && ParentsAt(s, born, t, ids, parents, at)
    ensures IsFirst(s, born, t, c) ==> ParentsAt(s, born, t, ids + [c], parents, at)
    ensures !IsFirst(s, born, t, c) && IsPredecessor(s, born, p, t, c) ==> ParentsAt(s, born, t, ids + [c], parents + [p], at + [|ids|])
  {
    var all, n := ids + [c], |ids|;
    assert all[n] == c && forall k :: 0 <= k < n ==> all[k] == ids[k];
    assert n !in at;
    assert n in at + [n] && forall k :: k != n ==> (k in at + [n] <==> k in at);
  }

  lemma {:induction false} ParentsFound(s: Core, born: map<TaskId, nat>, t: TaskId, ids: seq<ChainId>) returns (at: seq<nat>)
    requires Base(s) && InCreationOrder(s, born) && t in s.tasks && forall c :: c in ids ==> InChain(s, t, c)
    ensures ParentsAt(s, born, t, ids, ParentList(s.chains, t, ids), at)
  {
    at := [];
    if ids != [] {
      var init, c := ids[..|ids| - 1], ids[|ids| - 1];
      at := ParentsFound(s, born, t, init);
      ParentIs(s, born, t, c);
      var was, p := ParentList(s.chains, t, init), ParentOf(s.chains, t, c);
      assert init + [c] == ids;
      ParentsMore(s, born, t, init, c, was, at, if p == [] then t else p[0]);
      if p != [] {
        assert was + [p[0]] == was + p;
        at := at + [|init|];
      } else {
        assert was + p == was;
      }
    }
  }

  /** The list that start_next_task collects are the predecessors. */
  lemma ParentsAre(s: Core, born: map<TaskId, nat>, t: TaskId)
    requires Base(s) && InCreationOrder(s, born) && t in s.tasks
    ensures AreParents(s, born, t, ParentList(s.chains, t, s.tasks[t].chains))
  {
    var at := ParentsFound(s, born, t, s.tasks[t].chains);
  }

  // ----- what the primitive changes mean

  /** t's present start in the chain is of the chain's current generation. */
  predicate IsCurrent(s: Core, t: TaskId, c: ChainId) {
    c in s.chains && Has(s.chains[c], t)
    && s.chains[c].nodes[IndexOf(s.chains[c].nodes, t)].generation == s.chains[c].generation
  }

  /** A started task is current in each of its chains; nothing else changes for the others. */
  lemma StartedIsCurrent(s: Core, t: TaskId)
    requires Base(s) && Startable(s, t) && Member(s, t)
    ensures forall c :: c in s.tasks[t].chains ==> IsCurrent(StartOne(s, t), t, c)
    ensures forall x, c :: x != t ==> (IsCurrent(StartOne(s, t), x, c) <==> IsCurrent(s, x, c))
  {
    var s' := StartOne(s, t);
    StartOneStructure(s, t);
    forall x, c | c in s.chains ensures IndexOf(s'.chains[c].nodes, x) == IndexOf(s.chains[c].nodes, x) {
      SameIndex(s.chains[c].nodes, s'.chains[c].nodes, x);
    }
  }

  /**
   * A failure takes back a whole chain, and only where it counts: if the failed task was current
   * in the chain, no task of it is current any more, and else the chain's current tasks stay.
   */
  lemma FailureStales(s: Core, t: TaskId, st: TaskState, x: TaskId, c: ChainId)
    requires Base(s) && t in s.tasks && IsActive(s.tasks, t)
    ensures Member(s, t) && forall d :: d in s.tasks[t].chains ==> s.chains[d].active > 0
    ensures IsCurrent(Failed(s, t, st), x, c) <==> IsCurrent(s, x, c) && !IsCurrent(s, t, c)
  {
    BaseMember(s, t);
    assert LinkAt(s, t, c);
    var s' := Failed(s, t, st);
    if c in s.chains {
      assert ChainOK(s.chains[c], s.tasks);
      assert s'.chains[c].nodes == s.chains[c].nodes;
    }
  }

  /** A new task is current nowhere, and a finished one takes nobody's currency. */
  lemma CreatedNotCurrent(s: Core, t: TaskId, ids: seq<ChainId>, x: TaskId, c: ChainId)
    requires Base(s) && t !in s.tasks && (c in ids ==> c != 0)
    ensures IsCurrent(Created(s, t, ids), x, c) <==> IsCurrent(s, x, c)
  {
    var s' := Created(s, t, ids);
    assert LinkAt(s, t, c);
    if c in ids {
      var nodes, nodes' := ChainOrNew(s, c).nodes, s'.chains[c].nodes;
      assert nodes' == nodes + [ChainNode(t, 0)];
      AppendIndex(nodes, t, x);
      if c in s.chains { assert ChainOK(s.chains[c], s.tasks); }
    }
  }

  lemma AppendIndex(nodes: seq<ChainNode>, t: TaskId, x: TaskId)
    ensures var i, n := IndexOf(nodes + [ChainNode(t, 0)], x), |nodes|;
      i == if IndexOf(nodes, x) < n then IndexOf(nodes, x) else if x == t then n else n + 1
  {
    var all := nodes + [ChainNode(t, 0)];
    var i, k := IndexOf(all, x), IndexOf(nodes, x);
    if k < |nodes| { assert all[k] == nodes[k]; }
    if i < |nodes| { assert all[i] == nodes[i]; }
    assert forall j :: 0 <= j < k ==> all[j] == nodes[j];
    if x == t { assert all[|nodes|].task == x; }
  }

  lemma FinishedKeepsCurrent(s: Core, t: TaskId, x: TaskId, c: ChainId)
    requires Base(s) && t in s.tasks && x != t
    ensures IsCurrent(Finished(s, t), x, c) <==> IsCurrent(s, x, c)
  {
    BaseMember(s, t);
    assert LinkAt(s, t, c) && LinkAt(s, x, c);
    var s' := Finished(s, t);
    if c in s.tasks[t].chains {
      var nodes := s.chains[c].nodes;
      var i, k := IndexOf(nodes, t), IndexOf(nodes, x);
      assert DistinctTasks(nodes);
      if c in s'.chains {
        RemoveAt(nodes, i, s'.chains[c].nodes);
        var nodes' := s'.chains[c].nodes;
        if k < |nodes| {
          var m := if k < i then k else k - 1;
          assert Skip(i, m) == k && nodes'[m] == nodes[k];
          IndexIs(nodes', x, m);
        } else {
          assert forall j :: 0 <= j < |nodes'| ==> nodes'[j] == nodes[Skip(i, j)];
        }
      } else {
        assert |nodes| == 1;
      }
    }
  }

  /** Started tasks are handed out in the order of their starts: a run queues its tasks at the end. */
  lemma {:induction false} RunQueues(s: Core, run: seq<TaskId>)
    requires LegalRun(s, run)
    ensures AfterRun(s, run).pending == s.pending + run
    decreases |run|
  {
    if run == [] {
      assert s.pending + [] == s.pending;
    } else {
      RunQueues(StartOne(s, run[0]), run[1..]);
      assert s.pending + [run[0]] + run[1..] == s.pending + run;
    }
  }

  lemma {:induction false} NoneActive(nodes: seq<ChainNode>, tasks: map<TaskId, Task>)
    requires forall x :: !IsActive(tasks, x)
    ensures CountActive(nodes, tasks) == 0
  {
    if nodes != [] {
      NoneActive(nodes[1..], tasks);
    }
  }

  lemma PredecessorOlder(s: Core, born: map<TaskId, nat>, t: TaskId, c: ChainId) returns (p: TaskId)
    requires Base(s) && InCreationOrder(s, born) && c in s.chains && t in s.tasks && StaleParent(s.chains[c], t)
    ensures p in s.tasks && born[p] < born[t]
  {
    var i := IndexOf(s.chains[c].nodes, t);
    p := s.chains[c].nodes[i - 1].task;
    IndexIs(s.chains[c].nodes, p, i - 1);
    assert LinkAt(s, p, c);
  }

  /** While there are tasks and none is paused, at least one is active: the scheduler never stalls. */
  lemma Progress(s: Core, limited: map<ChainId, TaskId>, born: map<TaskId, nat>)
    requires Inv(s, limited, {}) && InCreationOrder(s, born)
    requires s.tasks.Keys != {} && forall t :: t in s.tasks ==> s.tasks[t].state != Paused
    ensures exists t :: IsActive(s.tasks, t)
  {
    if forall t :: !IsActive(s.tasks, t) {
      var t := EarliestExists(s.tasks.Keys, born);
      assert !IsActive(s.tasks, t);
      assert Blocked(s, limited, t);
      var c :| c in s.tasks[t].chains && BlockedBy(s, limited, t, c);
      NoneActive(s.chains[c].nodes, s.tasks);
      var p := PredecessorOlder(s, born, t, c);
      assert false;
    }
  }

  lemma PopInv(s: Core, limited: map<ChainId, TaskId>, s': Core)
    requires Inv(s, limited, {}) && s.pending != [] && s' == s.(pending := s.pending[1..])
    ensures Inv(s', limited, {})
  {
    forall t, c ensures LinkAt(s', t, c) {
      assert LinkAt(s, t, c);
    }
    forall t | IsPending(s'.tasks, t) ensures Blocked(s', limited, t) {
      assert Blocked(s, limited, t);
      var c :| c in s.tasks[t].chains && BlockedBy(s, limited, t, c);
      assert BlockedBy(s', limited, t, c);
    }
  }

  /** Tasks that are not waiting need not be tried. */
  lemma SettleExempt(s: Core, limited: map<ChainId, TaskId>, exempt: set<TaskId>, t: TaskId, toStart: seq<TaskId>)
    requires Inv(s, limited, exempt) && !IsPending(s.tasks, t)
    requires forall x :: x in exempt && x != t ==> x in toStart
    ensures Inv(s, limited, SetOf(toStart))
  {
  }
}
