/** The decomposer's validation: dependencies must exist and must not form a cycle. */
module CycleDetection {
  import opened Wrappers
  import opened Tasks

  /**
   * The state of the search: `path` and `stack` hold the ids whose calls are in
   * progress, `finished` those whose calls returned without a cycle, in that order.
   */
  ghost predicate IsSearch(g: Graph, visited: set<Id>, stack: set<Id>, path: seq<Id>, finished: seq<Id>) {
    && (forall id :: id in stack <==> id in path) && stack <= visited
    && Distinct(path) && IsWalk(g, path)
    && Distinct(finished) && DependenciesFirst(g, finished)
    && (forall id :: id in finished <==> id in visited && id !in stack)
  }

  lemma EnterId(g: Graph, visited: set<Id>, stack: set<Id>, path: seq<Id>, finished: seq<Id>, id: Id)
    requires IsSearch(g, visited, stack, path, finished) && id !in visited
    requires path != [] ==> id in Dependencies(g, path[|path| - 1])
    ensures IsSearch(g, visited + {id}, stack + {id}, path + [id], finished)
  {
    PathGrows(g, path, id);
  }

  lemma LeaveId(g: Graph, visited: set<Id>, stack: set<Id>, path: seq<Id>, finished: seq<Id>, id: Id)
    requires IsSearch(g, visited, stack + {id}, path + [id], finished) && id !in stack
    requires forall d :: d in Dependencies(g, id) ==> d in finished
    ensures IsSearch(g, visited, stack, path, finished + [id])
    ensures stack + {id} - {id} == stack && (path + [id])[..|path + [id]| - 1] == path
  {
    AppendFinished(g, finished, id);
    assert path == (path + [id])[..|path|];
    assert forall x :: x in path + [id] <==> x in path || x == id;
    assert (path + [id])[|path|] == id;
  }

  /** The depth-first search state that `detectCycle` closes over. */
  class CycleDetector {
    const graph: Graph
    var visited: set<Id>
    var recursionStack: set<Id>
    var currentPath: seq<Id>
    ghost var finished: seq<Id>

    /** Every id the search can meet. */
    ghost function Universe(): set<Id> {
      graph.Keys + set id, d | id in graph && d in graph[id] :: d
    }

    ghost predicate Valid()
      reads this
    {
      visited <= Universe() && IsSearch(graph, visited, recursionStack, currentPath, finished)
    }

    constructor (tasks: seq<Task>)
      ensures Valid() && graph == GraphOf(tasks)
      ensures visited == {} && currentPath == [] && finished == []
    {
      graph := GraphOf(tasks);
      visited, recursionStack, currentPath, finished := {}, {}, [], [];
    }

    /** Explores `taskId`; a result is a closed walk, no result means everything below it is finished. */
    method Dfs(taskId: Id) returns (cycle: Option<seq<Id>>)
      requires Valid() && taskId in Universe() && taskId !in visited
      requires currentPath != [] ==> taskId in Dependencies(graph, currentPath[|currentPath| - 1])
      modifies this
      ensures cycle.Some? ==> IsClosedWalk(graph, cycle.value)
      ensures cycle.None? ==>
                Valid() && currentPath == old(currentPath) && recursionStack == old(recursionStack)
                && old(visited) <= visited && taskId in finished
      decreases Universe() - visited, 0
    {
      ghost var stack, path := recursionStack, currentPath;
      Enter(taskId);
      cycle := ExploreDependencies(taskId);
      if cycle.Some? { return; }
      Leave(taskId, stack, path);
    }

    /** The marks of a call that begins. */
    method Enter(taskId: Id)
      requires Valid() && taskId in Universe() && taskId !in visited
      requires currentPath != [] ==> taskId in Dependencies(graph, currentPath[|currentPath| - 1])
      modifies this
      ensures Valid() && visited == old(visited) + {taskId} && finished == old(finished)
      ensures recursionStack == old(recursionStack) + {taskId} && currentPath == old(currentPath) + [taskId]
    {
      EnterId(graph, visited, recursionStack, currentPath, finished, taskId);
      visited := visited + {taskId};
      recursionStack := recursionStack + {taskId};
      currentPath := currentPath + [taskId];
    }

    /** The marks of a call that returns without a cycle. */
    method Leave(taskId: Id, ghost stack: set<Id>, ghost path: seq<Id>)
      requires Valid() && recursionStack == stack + {taskId} && currentPath == path + [taskId]
      requires taskId !in stack && forall d :: d in Dependencies(graph, taskId) ==> d in finished
      modifies this
      ensures Valid() && visited == old(visited) && finished == old(finished) + [taskId]
      ensures recursionStack == stack && currentPath == path
    {
      LeaveId(graph, visited, stack, path, finished, taskId);
      recursionStack := recursionStack - {taskId};
      currentPath := currentPath[..|currentPath| - 1];
      finished := finished + [taskId];
    }

    /** The loop over the dependencies of the task whose call is in progress. */
    method ExploreDependencies(taskId: Id) returns (cycle: Option<seq<Id>>)
      requires Valid() && currentPath != [] && currentPath[|currentPath| - 1] == taskId
      modifies this
      ensures cycle.Some? ==> IsClosedWalk(graph, cycle.value)
      ensures cycle.None? ==>
                Valid() && currentPath == old(currentPath) && recursionStack == old(recursionStack)
                && old(visited) <= visited && forall d :: d in Dependencies(graph, taskId) ==> d in finished
      decreases Universe() - visited, 1
    {
      var deps := Dependencies(graph, taskId);
      for i := 0 to |deps|
        invariant Valid() && currentPath == old(currentPath) && recursionStack == old(recursionStack)
        invariant old(visited) <= visited && forall k :: 0 <= k < i ==> deps[k] in finished
      {
        var dep := deps[i];
        assert taskId in graph && dep in graph[taskId];
        if dep !in visited {
          assert forall k :: 0 <= k < i ==> deps[k] in visited && deps[k] !in recursionStack;
          cycle := Dfs(dep);
          if cycle.Some? { return; }
        } else if dep in recursionStack {
          var cycleStart := IndexOf(currentPath, dep);
          PathCloses(graph, currentPath, cycleStart);
          return Some(currentPath[cycleStart..] + [dep]);
        }
      }
      cycle := None;
    }
  }

  lemma PathGrows(g: Graph, path: seq<Id>, id: Id)
    requires IsWalk(g, path) && Distinct(path) && id !in path
    requires path != [] ==> id in Dependencies(g, path[|path| - 1])
    ensures IsWalk(g, path + [id]) && Distinct(path + [id])
    ensures forall x :: x in path + [id] <==> x in path || x == id
  {
  }

  /** The part of a path from a member on, closed by an edge back to that member. */
  lemma PathCloses(g: Graph, path: seq<Id>, start: nat)
    requires IsWalk(g, path) && start < |path|
    requires path[start] in Dependencies(g, path[|path| - 1])
    ensures IsClosedWalk(g, path[start..] + [path[start]])
  {
    var walk := path[start..] + [path[start]];
    forall k, m | 0 <= k < m < |walk| && m == k + 1 ensures walk[m] in Dependencies(g, walk[k]) {
      assert walk[k] == path[start + k];
      if m < |walk| - 1 {
        assert walk[m] == path[start + m];
      }
    }
  }

  lemma AppendFinished(g: Graph, finished: seq<Id>, id: Id)
    requires Distinct(finished) && DependenciesFirst(g, finished)
    requires id !in finished && forall d :: d in Dependencies(g, id) ==> d in finished
    ensures Distinct(finished + [id]) && DependenciesFirst(g, finished + [id])
    ensures forall x :: x in finished + [id] <==> x in finished || x == id
  {
    var longer := finished + [id];
    forall k, d | 0 <= k < |longer| && d in Dependencies(g, longer[k]) ensures d in longer[..k] {
      assert k < |finished| ==> longer[..k] == finished[..k];
      assert k == |finished| ==> longer[..k] == finished;
    }
  }

  /** The first position of an element that is present. */
  method IndexOf(s: seq<Id>, x: Id) returns (i: nat)
    requires x in s
    ensures i < |s| && s[i] == x && x !in s[..i]
  {
    i := 0;
    while s[i] != x
      invariant i < |s| && x in s && x !in s[..i]
      decreases |s| - i
    {
      i := i + 1;
    }
  }

  /**
   * The cycle check. A reported path is a closed walk along dependencies; no
   * report means the graph has a topological order.
   */
  method DetectCycle(tasks: seq<Task>) returns (cycle: Option<seq<Id>>, ghost order: seq<Id>)
    ensures cycle.Some? ==> IsClosedWalk(GraphOf(tasks), cycle.value)
    ensures cycle.None? ==> IsTopologicalOrder(GraphOf(tasks), order)
    ensures cycle.None? <==> Acyclic(GraphOf(tasks))
  {
    var detector := new CycleDetector(tasks);
    order := [];
    var i := 0;
    while i < |tasks|
      invariant 0 <= i <= |tasks|
      invariant detector.Valid() && detector.graph == GraphOf(tasks) && detector.currentPath == []
      invariant fresh(detector)
      invariant forall k :: 0 <= k < i ==> tasks[k].id in detector.finished
    {
      var id := tasks[i].id;
      GraphKeys(tasks, id);
      if id !in detector.visited {
        cycle := detector.Dfs(id);
        if cycle.Some? { return; }
      }
      i := i + 1;
    }
    order := detector.finished;
    forall id | id in GraphOf(tasks) ensures id in order {
      GraphKeys(tasks, id);
    }
    TopologicalOrderIsAcyclic(GraphOf(tasks), order);
    cycle := None;
  }

  datatype DecompositionError =
    | InvalidDependency(taskId: Id, dependency: Id)
    | CycleDetected(path: seq<Id>)

  /** All dependencies before position `k` of task `i`, and those of earlier tasks, exist. */
  ghost predicate ValidUpTo(tasks: seq<Task>, i: int, k: int) {
    && (forall j, d :: 0 <= j < i && j < |tasks| && d in tasks[j].dependencies ==> HasId(tasks, d))
    && (0 <= i < |tasks| ==>
          forall m :: 0 <= m < k && m < |tasks[i].dependencies| ==> HasId(tasks, tasks[i].dependencies[m]))
  }

  /**
   * The checks `decompose` makes on a parsed task list: the first dependency on
   * an unknown id is an error, and so is a cycle. Success means the dependencies
   * exist and form an acyclic graph, and nothing else is rejected.
   */
  method ValidateDecomposition(tasks: seq<Task>) returns (r: Result<seq<Task>, DecompositionError>)
    ensures r.Success? <==> ValidDependencies(tasks) && Acyclic(GraphOf(tasks))
    ensures r.Success? ==> r.value == tasks
    ensures r.Failure? && r.error.InvalidDependency? ==>
              exists i, k :: 0 <= i < |tasks| && 0 <= k < |tasks[i].dependencies|
                          && r.error == InvalidDependency(tasks[i].id, tasks[i].dependencies[k])
                          && !HasId(tasks, tasks[i].dependencies[k]) && ValidUpTo(tasks, i, k)
    ensures r.Failure? && r.error.CycleDetected? ==>
              ValidDependencies(tasks) && IsClosedWalk(GraphOf(tasks), r.error.path)
  {
    var taskIds := set i | 0 <= i < |tasks| :: tasks[i].id;
    for i := 0 to |tasks|
      invariant ValidUpTo(tasks, i, 0)
    {
      var deps := tasks[i].dependencies;
      for k := 0 to |deps|
        invariant ValidUpTo(tasks, i, k)
      {
        if deps[k] !in taskIds {
          assert deps[k] in tasks[i].dependencies && !HasId(tasks, deps[k]);
          return Failure(InvalidDependency(tasks[i].id, deps[k]));
        }
      }
    }
    var cycle, _ := DetectCycle(tasks);
    r := if cycle.Some? then Failure(CycleDetected(cycle.value)) else Success(tasks);
  }
}
