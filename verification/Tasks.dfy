/** Decomposed tasks and the dependency graph the cycle check builds from them. */
module Tasks {

  type Id = string

  /** The fields of a decomposed task that scheduling looks at. */
  datatype Task = Task(id: Id, dependencies: seq<Id>)

  type Graph = map<Id, seq<Id>>

  ghost predicate UniqueIds(tasks: seq<Task>) {
    forall i, j :: 0 <= i < j < |tasks| ==> tasks[i].id != tasks[j].id
  }

  predicate HasId(tasks: seq<Task>, id: Id) {
    exists i :: 0 <= i < |tasks| && tasks[i].id == id
  }

  /** Every dependency names a task of the list. */
  ghost predicate ValidDependencies(tasks: seq<Task>) {
    forall i, d :: 0 <= i < |tasks| && d in tasks[i].dependencies ==> HasId(tasks, d)
  }

  /** The cycle check's map: a later task with the same id replaces an earlier one. */
  function GraphOf(tasks: seq<Task>): Graph {
    if tasks == [] then map[]
    else
      var last := tasks[|tasks| - 1];
      GraphOf(tasks[..|tasks| - 1])[last.id := last.dependencies]
  }

  /** An id the graph does not know has no dependencies. */
  function Dependencies(g: Graph, id: Id): seq<Id> {
    if id in g then g[id] else []
  }

  /** Each id of the walk depends on the next one. */
  ghost predicate IsWalk(g: Graph, walk: seq<Id>) {
    forall i, j :: 0 <= i < j < |walk| && j == i + 1 ==> walk[j] in Dependencies(g, walk[i])
  }

  ghost predicate IsClosedWalk(g: Graph, walk: seq<Id>) {
    |walk| >= 2 && walk[0] == walk[|walk| - 1] && IsWalk(g, walk)
  }

  ghost predicate Acyclic(g: Graph) {
    forall walk :: !IsClosedWalk(g, walk)
  }

  ghost predicate Distinct(s: seq<Id>) {
    forall i, j :: 0 <= i < j < |s| ==> s[i] != s[j]
  }

  /** Each id of the list stands after everything it depends on. */
  ghost predicate DependenciesFirst(g: Graph, order: seq<Id>) {
    forall i, d :: 0 <= i < |order| && d in Dependencies(g, order[i]) ==> d in order[..i]
  }

  ghost predicate IsTopologicalOrder(g: Graph, order: seq<Id>) {
    Distinct(order) && DependenciesFirst(g, order) && forall id :: id in g ==> id in order
  }

  lemma {:induction false} GraphKeys(tasks: seq<Task>, id: Id)
    ensures id in GraphOf(tasks) <==> HasId(tasks, id)
  {
    if tasks != [] {
      var n := |tasks| - 1;
      GraphKeys(tasks[..n], id);
      assert tasks[n].id == id || (HasId(tasks, id) <==> HasId(tasks[..n], id)) by {
        if tasks[n].id != id && HasId(tasks, id) {
          var i :| 0 <= i < |tasks| && tasks[i].id == id;
          assert tasks[..n][i].id == id;
        }
        if HasId(tasks[..n], id) {
          var i :| 0 <= i < n && tasks[..n][i].id == id;
          assert tasks[i].id == id;
        }
      }
    }
  }

  /** With unique ids the graph holds each task's own dependency list. */
  lemma {:induction false} GraphHasEveryTask(tasks: seq<Task>, i: nat)
    requires UniqueIds(tasks) && i < |tasks|
    ensures tasks[i].id in GraphOf(tasks) && GraphOf(tasks)[tasks[i].id] == tasks[i].dependencies
  {
    var n := |tasks| - 1;
    if i < n {
      GraphHasEveryTask(tasks[..n], i);
    }
  }

  /** A topological order rules out every closed walk: positions fall strictly along a walk. */
  lemma {:induction false} TopologicalOrderIsAcyclic(g: Graph, order: seq<Id>)
    requires IsTopologicalOrder(g, order)
    ensures Acyclic(g)
  {
    forall walk ensures !IsClosedWalk(g, walk) {
      if IsClosedWalk(g, walk) {
        assert walk[1] in Dependencies(g, walk[0]);
        var p :| 0 <= p < |order| && order[p] == walk[0];
        var q := WalkDescends(g, order, walk, |walk| - 1, p);
      }
    }
  }

  lemma {:induction false} WalkDescends(g: Graph, order: seq<Id>, walk: seq<Id>, n: nat, p: nat)
    returns (q: nat)
    requires Distinct(order) && DependenciesFirst(g, order) && IsWalk(g, walk)
    requires 1 <= n < |walk| && p < |order| && order[p] == walk[0]
    ensures q < p && order[q] == walk[n]
  {
    var before := p;
    if n > 1 {
      before := WalkDescends(g, order, walk, n - 1, p);
    }
    assert walk[n] in Dependencies(g, order[before]) by { assert walk[n] in Dependencies(g, walk[n - 1]); }
    assert walk[n] in order[..before];
    q :| 0 <= q < before && order[q] == walk[n];
  }
}
