/** What the primitive changes of the scheduler keep, chain by chain and for the whole state. */
module ChainLemmas {
  import opened ChainModel

  // ----- positions

  lemma IndexIs(nodes: seq<ChainNode>, t: TaskId, i: nat)
    requires DistinctTasks(nodes) && i < |nodes| && nodes[i].task == t
    ensures IndexOf(nodes, t) == i
  {
  }

  ghost predicate SameTasks(a: seq<ChainNode>, b: seq<ChainNode>) {
    |a| == |b| && forall i :: 0 <= i < |a| ==> a[i].task == b[i].task
  }

  lemma SameIndex(a: seq<ChainNode>, b: seq<ChainNode>, t: TaskId)
    requires SameTasks(a, b)
    ensures IndexOf(a, t) == IndexOf(b, t)
  {
  }

  // ----- counting active tasks

  lemma {:induction false} CountSame(a: seq<ChainNode>, b: seq<ChainNode>, tasks: map<TaskId, Task>, tasks': map<TaskId, Task>)
    requires SameTasks(a, b)
    requires forall i :: 0 <= i < |a| ==> IsActive(tasks, a[i].task) == IsActive(tasks', a[i].task)
    ensures CountActive(a, tasks) == CountActive(b, tasks')
  {
    if a != [] {
      assert forall i :: 0 <= i < |a[1..]| ==> a[1..][i] == a[i + 1] && b[1..][i] == b[i + 1];
      CountSame(a[1..], b[1..], tasks, tasks');
    }
  }

  lemma {:induction false} CountSplit(a: seq<ChainNode>, b: seq<ChainNode>, tasks: map<TaskId, Task>)
    ensures CountActive(a + b, tasks) == CountActive(a, tasks) + CountActive(b, tasks)
  {
    if a == [] {
      assert a + b == b;
    } else {
      assert (a + b)[1..] == a[1..] + b;
      CountSplit(a[1..], b, tasks);
    }
  }

  lemma CountAround(nodes: seq<ChainNode>, i: nat, tasks: map<TaskId, Task>)
    requires i < |nodes|
    ensures CountActive(nodes, tasks) ==
            CountActive(nodes[..i], tasks) + (if IsActive(tasks, nodes[i].task) then 1 else 0) + CountActive(nodes[i + 1..], tasks)
  {
    assert nodes == nodes[..i] + ([nodes[i]] + nodes[i + 1..]);
    CountSplit(nodes[..i], [nodes[i]] + nodes[i + 1..], tasks);
    assert ([nodes[i]] + nodes[i + 1..])[1..] == nodes[i + 1..];
  }

  lemma CountPositive(nodes: seq<ChainNode>, i: nat, tasks: map<TaskId, Task>)
    requires i < |nodes| && IsActive(tasks, nodes[i].task)
    ensures CountActive(nodes, tasks) > 0
  {
    CountAround(nodes, i, tasks);
  }

  /** Only the status of the task at position i changes. */
  lemma CountDelta(a: seq<ChainNode>, b: seq<ChainNode>, i: nat, tasks: map<TaskId, Task>, tasks': map<TaskId, Task>)
    requires SameTasks(a, b) && i < |a|
    requires forall j :: 0 <= j < |a| && j != i ==> IsActive(tasks, a[j].task) == IsActive(tasks', a[j].task)
    ensures CountActive(b, tasks') - (if IsActive(tasks', b[i].task) then 1 else 0)
            == CountActive(a, tasks) - (if IsActive(tasks, a[i].task) then 1 else 0)
  {
    CountAround(a, i, tasks);
    CountAround(b, i, tasks');
    CountSame(a[..i], b[..i], tasks, tasks');
    CountSame(a[i + 1..], b[i + 1..], tasks, tasks');
  }

  lemma CountRemove(nodes: seq<ChainNode>, i: nat, tasks: map<TaskId, Task>)
    requires i < |nodes|
    ensures CountActive(nodes[..i] + nodes[i + 1..], tasks)
            == CountActive(nodes, tasks) - (if IsActive(tasks, nodes[i].task) then 1 else 0)
  {
    CountAround(nodes, i, tasks);
    CountSplit(nodes[..i], nodes[i + 1..], tasks);
  }

  // ----- one chain

  /** The tasks of the current generation are a prefix of the chain, and all of them are active. */
  lemma CurrentPrefix(ch: ChainInfo, tasks: map<TaskId, Task>, i: nat, j: nat)
    requires ChainOK(ch, tasks)
    requires i <= j < |ch.nodes| && ch.nodes[j].generation == ch.generation
    ensures ch.nodes[i].generation == ch.generation && IsActive(tasks, ch.nodes[i].task)
  {
    assert i < j ==> ch.nodes[i].generation >= ch.nodes[j].generation;
  }

  /** A chain has at most one task that waits with a current predecessor. */
  lemma CandidateUnique(ch: ChainInfo, tasks: map<TaskId, Task>, x: TaskId, y: TaskId)
    requires ChainShape(ch, tasks)
    requires Has(ch, x) && !IsActive(tasks, x) && !StaleParent(ch, x)
    requires Has(ch, y) && !IsActive(tasks, y) && !StaleParent(ch, y)
    ensures x == y
  {
  }

  lemma StartInOK(ch: ChainInfo, tasks: map<TaskId, Task>, t: TaskId, tasks': map<TaskId, Task>)
    requires ChainOK(ch, tasks) && Has(ch, t) && t in tasks && tasks[t].state != Active
    requires !StaleParent(ch, t) && ch.active < MAX_ACTIVE
    requires tasks' == tasks[t := tasks[t].(state := Active)]
    ensures ChainOK(StartIn(ch, t), tasks') && SameTasks(ch.nodes, StartIn(ch, t).nodes)
  {
    var i := IndexOf(ch.nodes, t);
    var ch' := StartIn(ch, t);
    assert forall j :: 0 <= j < |ch.nodes| && j != i ==> ch.nodes[j].task != t;
    CountDelta(ch.nodes, ch'.nodes, i, tasks, tasks');
    forall j, k | 0 <= j < k < |ch'.nodes| ensures ch'.nodes[j].generation >= ch'.nodes[k].generation {
      if k == i {
        assert j < i - 1 ==> ch.nodes[j].generation >= ch.nodes[i - 1].generation;
      }
    }
  }

  lemma UntouchedOK(ch: ChainInfo, tasks: map<TaskId, Task>, tasks': map<TaskId, Task>)
    requires ChainOK(ch, tasks)
    requires forall i :: 0 <= i < |ch.nodes| ==> IsActive(tasks, ch.nodes[i].task) == IsActive(tasks', ch.nodes[i].task)
    ensures ChainOK(ch, tasks')
  {
    CountSame(ch.nodes, ch.nodes, tasks, tasks');
  }

  lemma FailInOK(ch: ChainInfo, tasks: map<TaskId, Task>, t: TaskId, tasks': map<TaskId, Task>, st: TaskState)
    requires ChainOK(ch, tasks) && Has(ch, t) && t in tasks
    requires tasks' == tasks[t := tasks[t].(state := st)] && st != Active
    requires IsActive(tasks, t) ==> ch.active > 0
    ensures ChainOK(InactivateIn(ch, t, IsActive(tasks, t), true), tasks')
  {
    var i := IndexOf(ch.nodes, t);
    CountDelta(ch.nodes, ch.nodes, i, tasks, tasks');
    var ch' := InactivateIn(ch, t, IsActive(tasks, t), true);
    forall j | 0 <= j < |ch'.nodes| && ch'.nodes[j].generation == ch'.generation
      ensures IsActive(tasks', ch'.nodes[j].task)
    {
    }
  }

  function Skip(i: nat, j: nat): nat { if j < i then j else j + 1 }

  lemma RemoveAt(a: seq<ChainNode>, i: nat, b: seq<ChainNode>)
    requires i < |a| && b == a[..i] + a[i + 1..]
    ensures |b| == |a| - 1
    ensures forall j :: 0 <= j < |b| ==> b[j] == a[Skip(i, j)]
    ensures DistinctTasks(a) ==> DistinctTasks(b)
    ensures NonIncreasing(a) ==> NonIncreasing(b)
  {
    assert forall j :: 0 <= j < |b| ==> b[j] == a[Skip(i, j)];
    if DistinctTasks(a) {
      forall j, k | 0 <= j < k < |b| ensures b[j].task != b[k].task {
        assert a[Skip(i, j)].task != a[Skip(i, k)].task;
      }
    }
    if NonIncreasing(a) {
      forall j, k | 0 <= j < k < |b| ensures b[j].generation >= b[k].generation {
        assert a[Skip(i, j)].generation >= a[Skip(i, k)].generation;
      }
    }
  }

  lemma RemoveShape(ch: ChainInfo, tasks: map<TaskId, Task>, t: TaskId, tasks': map<TaskId, Task>)
    requires ChainShape(ch, tasks) && Has(ch, t) && |ch.nodes| > 1
    requires forall x :: x != t ==> IsActive(tasks, x) == IsActive(tasks', x)
    ensures ChainShape(RemoveIn(ch, t), tasks')
    ensures forall j :: 0 <= j < |RemoveIn(ch, t).nodes| ==> RemoveIn(ch, t).nodes[j].task != t
  {
    var i := IndexOf(ch.nodes, t);
    var b := RemoveIn(ch, t).nodes;
    RemoveAt(ch.nodes, i, b);
    forall j | 0 <= j < |b|
      ensures b[j].task != t && b[j].generation <= ch.generation
      ensures b[j].generation == ch.generation ==> IsActive(tasks', b[j].task)
    {
      assert ch.nodes[Skip(i, j)].task != ch.nodes[i].task;
    }
  }

  lemma FinishInOK(ch: ChainInfo, tasks: map<TaskId, Task>, t: TaskId, tasks': map<TaskId, Task>)
    requires ChainOK(ch, tasks) && Has(ch, t) && t in tasks && |ch.nodes| > 1
    requires IsActive(tasks, t) ==> ch.active > 0
    requires tasks' == map x | x in tasks && x != t :: tasks[x]
    ensures ChainOK(RemoveIn(InactivateIn(ch, t, IsActive(tasks, t), false), t), tasks')
  {
    var i := IndexOf(ch.nodes, t);
    var removed := RemoveIn(ch, t);
    RemoveShape(ch, tasks, t, tasks');
    CountRemove(ch.nodes, i, tasks);
    CountSame(removed.nodes, removed.nodes, tasks, tasks');
  }

  lemma AppendOK(ch: ChainInfo, tasks: map<TaskId, Task>, t: TaskId, tasks': map<TaskId, Task>, task: Task)
    requires ch == ChainInfo([], 0, 1) || ChainOK(ch, tasks)
    requires forall i :: 0 <= i < |ch.nodes| ==> ch.nodes[i].task in tasks
    requires t !in tasks && tasks' == tasks[t := task] && task.state == Pending
    ensures ChainOK(ch.(nodes := ch.nodes + [ChainNode(t, 0)]), tasks')
  {
    CountSame(ch.nodes, ch.nodes, tasks, tasks');
    CountSplit(ch.nodes, [ChainNode(t, 0)], tasks');
  }
}
