/**
 * The layered layout of the task graph: a memoised depth search with a shared
 * cycle guard, then one column per depth. A JavaScript `Map` is a map with the
 * list of its keys in insertion order.
 */
module Layout {
  import opened Tasks

  /** The dependencies that are themselves tasks. */
  function Parents(tasks: Graph, dependsOn: seq<Id>): (r: seq<Id>)
    ensures forall p :: p in r <==> p in dependsOn && p in tasks
  {
    if dependsOn == [] then []
    else (if dependsOn[0] in tasks then [dependsOn[0]] else []) + Parents(tasks, dependsOn[1..])
  }

  function ParentGraph(tasks: Graph): (g: Graph)
    ensures g.Keys == tasks.Keys
    ensures forall id, p :: p in Dependencies(g, id) ==> id in g && p in g
  {
    map id | id in tasks :: Parents(tasks, tasks[id])
  }

  // ---- Depth, as the plain definition has it ----

  /** A walk of `n` steps from a task to a parent, to a parent of that, and so on. */
  ghost predicate HasChain(g: Graph, id: Id, n: nat) {
    exists walk :: IsWalk(g, walk) && StartsAt(walk, id) && |walk| == n + 1
  }

  ghost predicate StartsAt(walk: seq<Id>, id: Id) {
    walk != [] && walk[0] == id
  }

  /** `d` is the length of the longest parent chain. */
  ghost predicate IsDepth(g: Graph, id: Id, d: nat) {
    HasChain(g, id, d) && forall n: nat :: HasChain(g, id, n) ==> n <= d
  }

  /** A parent chain from the task visits some task twice. */
  ghost predicate ReachesCycle(g: Graph, id: Id) {
    exists walk :: IsWalk(g, walk) && StartsAt(walk, id) && !Distinct(walk)
  }

  lemma ParentReachesCycle(g: Graph, id: Id, p: Id)
    requires p in Dependencies(g, id) && ReachesCycle(g, p)
    ensures ReachesCycle(g, id)
  {
    var walk :| IsWalk(g, walk) && StartsAt(walk, p) && !Distinct(walk);
    var longer := [id] + walk;
    var i, j :| 0 <= i < j < |walk| && walk[i] == walk[j];
    assert longer[i + 1] == longer[j + 1];
    assert StartsAt(longer, id) && !Distinct(longer);
  }

  lemma ChainOfParent(g: Graph, id: Id, p: Id, n: nat)
    requires p in Dependencies(g, id) && HasChain(g, p, n)
    ensures HasChain(g, id, n + 1)
  {
    var walk :| IsWalk(g, walk) && StartsAt(walk, p) && |walk| == n + 1;
    assert StartsAt([id] + walk, id);
  }

  lemma ChainToParent(g: Graph, id: Id, n: nat) returns (p: Id)
    requires HasChain(g, id, n) && n > 0
    ensures p in Dependencies(g, id) && HasChain(g, p, n - 1)
  {
    var walk :| IsWalk(g, walk) && StartsAt(walk, id) && |walk| == n + 1;
    p := walk[1];
    assert IsWalk(g, walk[1..]) && StartsAt(walk[1..], p);
  }

  lemma ChainOfNone(g: Graph, id: Id)
    ensures HasChain(g, id, 0)
  {
    assert IsWalk(g, [id]) && StartsAt([id], id);
  }

  /** Going round a cycle makes chains as long as one likes. */
  lemma {:induction false} Pump(g: Graph, walk: seq<Id>, i: nat, j: nat, n: nat) returns (longer: seq<Id>)
    requires IsWalk(g, walk) && i < j < |walk| && walk[i] == walk[j]
    ensures IsWalk(g, longer) && StartsAt(longer, walk[0]) && |longer| > n && longer[|longer| - 1] == walk[j]
  {
    if n == 0 {
      longer := walk[..j + 1];
    } else {
      var shorter := Pump(g, walk, i, j, n - 1);
      longer := JoinWalks(g, shorter, walk[i + 1..j + 1]);
    }
  }

  lemma JoinWalks(g: Graph, a: seq<Id>, b: seq<Id>) returns (walk: seq<Id>)
    requires IsWalk(g, a) && IsWalk(g, b) && a != [] && b != [] && b[0] in Dependencies(g, a[|a| - 1])
    ensures walk == a + b && IsWalk(g, walk)
  {
    walk := a + b;
    forall k, m | 0 <= k < m < |walk| && m == k + 1 ensures walk[m] in Dependencies(g, walk[k]) {
      if m < |a| {
        assert walk[m] == a[m];
      } else if m > |a| {
        assert walk[m] == b[m - |a|] && walk[k] == b[k - |a|];
      }
    }
  }

  /** A task that reaches a cycle has no longest chain. */
  lemma CycleHasNoDepth(g: Graph, id: Id, d: nat)
    requires ReachesCycle(g, id)
    ensures !IsDepth(g, id, d)
  {
    var walk :| IsWalk(g, walk) && StartsAt(walk, id) && !Distinct(walk);
    var i, j :| 0 <= i < j < |walk| && walk[i] == walk[j];
    var longer := Pump(g, walk, i, j, d + 1);
    assert HasChain(g, id, |longer| - 1);
  }

  lemma CyclicReachesCycle(g: Graph)
    ensures Acyclic(g) <==> forall id :: !ReachesCycle(g, id)
  {
    if !Acyclic(g) {
      var walk :| IsClosedWalk(g, walk);
      assert !Distinct(walk) && StartsAt(walk, walk[0]);
      assert ReachesCycle(g, walk[0]);
    }
    if id :| ReachesCycle(g, id) {
      var walk :| IsWalk(g, walk) && StartsAt(walk, id) && !Distinct(walk);
      var i, j :| 0 <= i < j < |walk| && walk[i] == walk[j];
      var closed := walk[i..j + 1];
      assert closed[0] == walk[i] && closed[|closed| - 1] == walk[j];
      assert IsClosedWalk(g, closed);
    }
  }

  // ---- The search ----

  ghost predicate IsMemo(g: Graph, depth: map<Id, nat>) {
    forall id :: id in depth && !ReachesCycle(g, id) ==> IsDepth(g, id, depth[id])
  }

  /** `d` is one more than the largest of the parents' depths, or 0 without parents. */
  lemma DepthFromParents(g: Graph, id: Id, depths: seq<nat>, d: nat)
    requires !ReachesCycle(g, id) && |depths| == |Dependencies(g, id)|
    requires forall k :: 0 <= k < |depths| ==> IsDepth(g, Dependencies(g, id)[k], depths[k])
    requires if depths == [] then d == 0
             else d > 0 && d - 1 in depths && forall k :: 0 <= k < |depths| ==> depths[k] < d
    ensures IsDepth(g, id, d)
  {
    var parents := Dependencies(g, id);
    if depths == [] {
      ChainOfNone(g, id);
    } else {
      var k :| 0 <= k < |depths| && depths[k] == d - 1;
      ChainOfParent(g, id, parents[k], d - 1);
    }
    forall n: nat | HasChain(g, id, n) ensures n <= d {
      if n > 0 {
        var p := ChainToParent(g, id, n);
        var k :| 0 <= k < |parents| && parents[k] == p;
      }
    }
  }

  ghost predicate Extends(depth: map<Id, nat>, earlier: map<Id, nat>) {
    forall id :: id in earlier ==> id in depth && depth[id] == earlier[id]
  }

  /** The state of the search; `path` lists the tasks whose calls are in progress. */
  ghost predicate IsState(g: Graph, depth: map<Id, nat>, seen: set<Id>, path: seq<Id>) {
    && IsMemo(g, depth) && depth.Keys <= g.Keys && seen <= g.Keys
    && IsWalk(g, path) && (forall id :: id in path <==> id in seen && id !in depth)
  }

  ghost predicate IsNext(g: Graph, path: seq<Id>, id: Id) {
    id in g && (path != [] ==> id in Dependencies(g, path[|path| - 1]))
  }

  lemma EnterTask(g: Graph, depth: map<Id, nat>, seen: set<Id>, path: seq<Id>, id: Id)
    requires IsState(g, depth, seen, path) && IsNext(g, path, id) && id !in seen && id !in depth
    ensures IsState(g, depth, seen + {id}, path + [id])
  {
  }

  lemma LeaveTask(g: Graph, depth: map<Id, nat>, seen: set<Id>, path: seq<Id>, id: Id, d: nat)
    requires IsState(g, depth, seen, path + [id]) && id !in path && id in g
    requires !ReachesCycle(g, id) ==> IsDepth(g, id, d)
    ensures IsState(g, depth[id := d], seen, path) && Extends(depth[id := d], depth)
  {
    assert forall x :: x in path + [id] <==> x in path || x == id;
    assert IsWalk(g, path) by {
      assert path == (path + [id])[..|path|];
    }
  }

  /** What the loop over the parents has computed after `i` of them. */
  ghost predicate HasDepths(g: Graph, parents: seq<Id>, i: nat, depths: seq<nat>, d: nat) {
    && |depths| == i <= |parents|
    && (forall k :: 0 <= k < i && !ReachesCycle(g, parents[k]) ==> IsDepth(g, parents[k], depths[k]))
    && (if i == 0 then d == 0 else d > 0 && d - 1 in depths && forall k :: 0 <= k < i ==> depths[k] < d)
  }

  lemma AddDepth(g: Graph, parents: seq<Id>, i: nat, depths: seq<nat>, d: nat, below: nat)
    requires HasDepths(g, parents, i, depths, d) && i < |parents|
    requires !ReachesCycle(g, parents[i]) ==> IsDepth(g, parents[i], below)
    ensures HasDepths(g, parents, i + 1, depths + [below], if d <= below then below + 1 else d)
  {
    var longer := depths + [below];
    assert longer[i] == below;
    if d > below {
      assert d - 1 in depths;
      var k :| 0 <= k < i && depths[k] == d - 1;
      assert longer[k] == d - 1;
    }
  }

  lemma LoopGivesDepth(g: Graph, id: Id, depths: seq<nat>, d: nat)
    requires HasDepths(g, Dependencies(g, id), |Dependencies(g, id)|, depths, d)
    ensures !ReachesCycle(g, id) ==> IsDepth(g, id, d)
  {
    var parents := Dependencies(g, id);
    if !ReachesCycle(g, id) {
      forall k | 0 <= k < |parents| ensures !ReachesCycle(g, parents[k]) {
        if ReachesCycle(g, parents[k]) {
          ParentReachesCycle(g, id, parents[k]);
        }
      }
      DepthFromParents(g, id, depths, d);
    }
  }

  class DepthSearch {
    const tasks: Graph
    var depth: map<Id, nat>
    var seen: set<Id>
    ghost const g: Graph
    ghost var path: seq<Id>

    ghost predicate Valid()
      reads this
    {
      g == ParentGraph(tasks) && IsState(g, depth, seen, path)
    }

    constructor (tasks: Graph)
      ensures Valid() && this.tasks == tasks && depth == map[] && path == []
    {
      this.tasks := tasks;
      depth, seen := map[], {};
      g, path := ParentGraph(tasks), [];
    }

    method ComputeDepth(id: Id) returns (d: nat)
      requires Valid() && IsNext(g, path, id)
      modifies this
      ensures Valid() && path == old(path) && old(seen) <= seen && Extends(depth, old(depth))
      ensures !ReachesCycle(g, id) ==> IsDepth(g, id, d)
      ensures (id in depth && depth[id] == d) || id in path
      decreases tasks.Keys - seen, 0
    {
      if id in depth {
        return depth[id];
      }
      if id in seen {
        PathShowsCycle(g, path, id);
        return 0;
      }
      EnterTask(g, depth, seen, path, id);
      seen := seen + {id};
      path := path + [id];
      d := DepthAbove(id);
      LeaveTask(g, depth, seen, old(path), id, d);
      depth := depth[id := d];
      path := old(path);
    }

    /** A search from a root, with a new `seen` set. */
    method ComputeFrom(id: Id)
      requires Valid() && id in g
      modifies this
      ensures Valid() && Extends(depth, old(depth)) && id in depth
    {
      seen, path := {}, [];
      var d := ComputeDepth(id);
    }

    /** A search from each task in turn. */
    method ComputeAll(order: seq<Id>)
      requires Valid() && forall k :: 0 <= k < |order| ==> order[k] in g
      modifies this
      ensures Valid() && forall k :: 0 <= k < |order| ==> order[k] in depth
    {
      for i := 0 to |order|
        invariant Valid() && forall k :: 0 <= k < i ==> order[k] in depth
      {
        ComputeFrom(order[i]);
      }
    }

    /** 0 without parents, else one more than the largest depth of a parent. */
    method DepthAbove(id: Id) returns (d: nat)
      requires Valid() && id in g && path != [] && path[|path| - 1] == id
      modifies this
      ensures Valid() && path == old(path) && old(seen) <= seen && Extends(depth, old(depth))
      ensures !ReachesCycle(g, id) ==> IsDepth(g, id, d)
      decreases tasks.Keys - seen, 1
    {
      var parents := Parents(tasks, tasks[id]);
      assert parents == Dependencies(g, id);
      d := 0;
      ghost var depths: seq<nat> := [];
      for i := 0 to |parents|
        invariant Valid() && path == old(path) && old(seen) <= seen && Extends(depth, old(depth))
        invariant HasDepths(g, parents, i, depths, d)
      {
        var below := ComputeDepth(parents[i]);
        AddDepth(g, parents, i, depths, d, below);
        depths := depths + [below];
        d := if d <= below then below + 1 else d;
      }
      LoopGivesDepth(g, id, depths, d);
    }
  }

  lemma PathShowsCycle(g: Graph, path: seq<Id>, id: Id)
    requires IsWalk(g, path) && id in path && id in Dependencies(g, path[|path| - 1])
    ensures ReachesCycle(g, id)
  {
    var k :| 0 <= k < |path| && path[k] == id;
    var walk := JoinWalks(g, path[k..], [id]);
    assert walk[0] == walk[|walk| - 1] && StartsAt(walk, id);
  }

  // ---- Placement ----

  datatype Node = Node(id: Id, x: nat, y: nat)
  datatype Edge = Edge(source: Id, target: Id)

  const COLUMN := 220
  const ROW := 80

  /** How many of the tasks are in column `d`. */
  function CountInColumn(ids: seq<Id>, depth: map<Id, nat>, d: nat): nat
    requires forall id :: id in ids ==> id in depth
  {
    if ids == [] then 0
    else
      var n := |ids| - 1;
      CountInColumn(ids[..n], depth, d) + if depth[ids[n]] == d then 1 else 0
  }

  /** Each task stands in the column of its depth, below the earlier tasks of that column. */
  ghost predicate ArePlaced(order: seq<Id>, depth: map<Id, nat>, nodes: seq<Node>) {
    && |nodes| == |order| && (forall id :: id in order ==> id in depth)
    && forall i :: 0 <= i < |order| ==>
         nodes[i] == Node(order[i], depth[order[i]] * COLUMN, CountInColumn(order[..i], depth, depth[order[i]]) * ROW)
  }

  method PlaceNodes(order: seq<Id>, depth: map<Id, nat>) returns (nodes: seq<Node>)
    requires forall id :: id in order ==> id in depth
    ensures ArePlaced(order, depth, nodes)
  {
    var columnCount: map<nat, nat> := map[];
    nodes := [];
    for i := 0 to |order|
      invariant ArePlaced(order[..i], depth, nodes)
      invariant forall d: nat :: CountInColumn(order[..i], depth, d) == if d in columnCount then columnCount[d] else 0
    {
      var id := order[i];
      var d: nat := depth[id];
      var row: nat := if d in columnCount then columnCount[d] else 0;
      columnCount := columnCount[d := row + 1];
      nodes := nodes + [Node(id, d * COLUMN, row * ROW)];
      PlaceNext(order, depth, i, nodes);
    }
    assert order[..|order|] == order;
  }

  lemma PlaceNext(order: seq<Id>, depth: map<Id, nat>, i: nat, nodes: seq<Node>)
    requires i < |order| && |nodes| == i + 1 && forall id :: id in order ==> id in depth
    requires ArePlaced(order[..i], depth, nodes[..i])
    requires nodes[i] == Node(order[i], depth[order[i]] * COLUMN,
                              CountInColumn(order[..i], depth, depth[order[i]]) * ROW)
    ensures ArePlaced(order[..i + 1], depth, nodes)
    ensures forall d: nat :: CountInColumn(order[..i + 1], depth, d)
                          == CountInColumn(order[..i], depth, d) + if depth[order[i]] == d then 1 else 0
  {
    var longer := order[..i + 1];
    assert longer[..i] == order[..i];
    forall k | 0 <= k < i ensures longer[..k] == order[..i][..k] && nodes[k] == nodes[..i][k] {
    }
  }

  lemma {:induction false} CountGrows(order: seq<Id>, depth: map<Id, nat>, i: nat, j: nat)
    requires i < j <= |order| && forall id :: id in order ==> id in depth
    ensures CountInColumn(order[..i], depth, depth[order[i]]) < CountInColumn(order[..j], depth, depth[order[i]])
  {
    assert order[..j][..j - 1] == order[..j - 1];
    if i < j - 1 {
      CountGrows(order, depth, i, j - 1);
    }
  }

  /** No two tasks share a position. */
  lemma PositionsDiffer(order: seq<Id>, depth: map<Id, nat>, nodes: seq<Node>, i: nat, j: nat)
    requires ArePlaced(order, depth, nodes) && i < j < |nodes|
    ensures nodes[i].x != nodes[j].x || nodes[i].y < nodes[j].y
  {
    if depth[order[i]] == depth[order[j]] {
      RowsDiffer(order, depth, i, j);
    }
  }

  lemma RowsDiffer(order: seq<Id>, depth: map<Id, nat>, i: nat, j: nat)
    requires i < j < |order| && (forall id :: id in order ==> id in depth) && depth[order[i]] == depth[order[j]]
    ensures CountInColumn(order[..i], depth, depth[order[i]]) * ROW
          < CountInColumn(order[..j], depth, depth[order[j]]) * ROW
  {
    CountGrows(order, depth, i, j);
  }

  /** How often an edge is asked for: once for each time the target is listed and lists the source. */
  ghost function TimesAsked(done: seq<Id>, tasks: Graph, e: Edge): nat {
    if e.source in tasks then multiset(done)[e.target] * multiset(Dependencies(tasks, e.target))[e.source] else 0
  }

  /** Every edge is there as often as it is asked for. */
  ghost predicate HasEdgesOf(done: seq<Id>, tasks: Graph, edges: seq<Edge>) {
    forall e :: multiset(edges)[e] == TimesAsked(done, tasks, e)
  }

  /** Edges to one target are added for the parents that are tasks. */
  ghost predicate HasMoreEdges(before: seq<Edge>, edges: seq<Edge>, tasks: Graph, target: Id, parents: seq<Id>) {
    forall e :: multiset(edges)[e] == multiset(before)[e]
                  + if e.target == target && e.source in tasks then multiset(parents)[e.source] else 0
  }

  lemma EdgesAreDependencies(order: seq<Id>, tasks: Graph, edges: seq<Edge>)
    requires HasEdgesOf(order, tasks, edges) && forall id :: id in order <==> id in tasks
    ensures forall e :: e in edges <==> e.source in Dependencies(ParentGraph(tasks), e.target)
  {
    forall e ensures e in edges <==> e.source in Dependencies(ParentGraph(tasks), e.target) {
      var listed, asked := multiset(order)[e.target], multiset(Dependencies(tasks, e.target))[e.source];
      assert e in edges <==> multiset(edges)[e] > 0;
      assert e.source in Dependencies(tasks, e.target) <==> asked > 0;
      assert e.target in order <==> listed > 0;
      assert listed > 0 && asked > 0 <==> listed * asked > 0;
    }
  }

  /** One edge for each entry of a dependency list that is a task, and no other. */
  method ConnectNodes(order: seq<Id>, tasks: Graph) returns (edges: seq<Edge>)
    requires forall id :: id in order <==> id in tasks
    ensures HasEdgesOf(order, tasks, edges)
    ensures forall e :: e in edges <==> e.source in Dependencies(ParentGraph(tasks), e.target)
  {
    edges := [];
    for i := 0 to |order|
      invariant HasEdgesOf(order[..i], tasks, edges)
    {
      ghost var before := edges;
      var parents := tasks[order[i]];
      for k := 0 to |parents|
        invariant HasMoreEdges(before, edges, tasks, order[i], parents[..k])
      {
        OneMoreParent(before, edges, tasks, order[i], parents, k);
        if parents[k] in tasks {
          edges := edges + [Edge(parents[k], order[i])];
        }
      }
      assert parents[..|parents|] == parents;
      OneMoreTask(order, tasks, i, before, edges);
    }
    assert order[..|order|] == order;
    EdgesAreDependencies(order, tasks, edges);
  }

  lemma OneMoreParent(before: seq<Edge>, edges: seq<Edge>, tasks: Graph, target: Id, parents: seq<Id>, k: nat)
    requires k < |parents| && HasMoreEdges(before, edges, tasks, target, parents[..k])
    ensures HasMoreEdges(before, if parents[k] in tasks then edges + [Edge(parents[k], target)] else edges, tasks,
                         target, parents[..k + 1])
  {
    assert parents[..k + 1] == parents[..k] + [parents[k]];
  }

  lemma OneMoreTask(order: seq<Id>, tasks: Graph, i: nat, before: seq<Edge>, edges: seq<Edge>)
    requires i < |order| && order[i] in tasks && HasEdgesOf(order[..i], tasks, before)
    requires HasMoreEdges(before, edges, tasks, order[i], tasks[order[i]])
    ensures HasEdgesOf(order[..i + 1], tasks, edges)
  {
    assert order[..i + 1] == order[..i] + [order[i]];
    forall e ensures multiset(edges)[e] == TimesAsked(order[..i + 1], tasks, e) {
      AskedOnceMore(multiset(order[..i])[e.target], multiset(Dependencies(tasks, e.target))[e.source]);
    }
  }

  lemma AskedOnceMore(listed: nat, asked: nat)
    ensures (listed + 1) * asked == listed * asked + asked
  {
  }

  /** The layout of the tasks in the order the events introduced them. */
  method BuildGraph(order: seq<Id>, tasks: Graph) returns (nodes: seq<Node>, edges: seq<Edge>, depth: map<Id, nat>)
    requires forall id :: id in order <==> id in tasks
    ensures depth.Keys == tasks.Keys && IsMemo(ParentGraph(tasks), depth)
    ensures ArePlaced(order, depth, nodes) && HasEdgesOf(order, tasks, edges)
    ensures forall e :: e in edges <==> e.source in Dependencies(ParentGraph(tasks), e.target)
  {
    depth := AllDepths(order, tasks);
    nodes := PlaceNodes(order, depth);
    edges := ConnectNodes(order, tasks);
  }

  method AllDepths(order: seq<Id>, tasks: Graph) returns (depth: map<Id, nat>)
    requires forall id :: id in order <==> id in tasks
    ensures depth.Keys == tasks.Keys && IsMemo(ParentGraph(tasks), depth)
  {
    var search := new DepthSearch(tasks);
    search.ComputeAll(order);
    depth := search.depth;
  }

  // ---- What the layout shows ----

  /** The memo holds the longest chain of a task exactly when no cycle can be reached from it. */
  lemma DepthIsLongestChain(g: Graph, depth: map<Id, nat>, id: Id)
    requires IsMemo(g, depth) && id in depth
    ensures IsDepth(g, id, depth[id]) <==> !ReachesCycle(g, id)
  {
    if ReachesCycle(g, id) {
      CycleHasNoDepth(g, id, depth[id]);
    }
  }

  /** On an acyclic graph the depths do not depend on the order the tasks are visited in. */
  lemma DepthsAreUnique(g: Graph, a: map<Id, nat>, b: map<Id, nat>)
    requires Acyclic(g) && IsMemo(g, a) && IsMemo(g, b) && a.Keys == b.Keys
    ensures a == b
  {
    CyclicReachesCycle(g);
  }

  ghost predicate EdgesPointRight(g: Graph, depth: map<Id, nat>) {
    forall id, p :: id in depth && p in depth && p in Dependencies(g, id) ==> depth[p] < depth[id]
  }

  /** Every edge leads to a strictly larger column exactly when the graph is acyclic. */
  lemma EdgesPointRightIff(g: Graph, depth: map<Id, nat>)
    requires IsMemo(g, depth) && depth.Keys == g.Keys && forall id, p :: p in Dependencies(g, id) ==> id in g && p in g
    ensures EdgesPointRight(g, depth) <==> Acyclic(g)
  {
    CyclicReachesCycle(g);
    if Acyclic(g) {
      forall id, p | id in depth && p in depth && p in Dependencies(g, id) ensures depth[p] < depth[id] {
        ChainOfParent(g, id, p, depth[p]);
      }
    }
    if EdgesPointRight(g, depth) {
      forall walk ensures !IsClosedWalk(g, walk) {
        if IsClosedWalk(g, walk) {
          WalkGoesLeft(g, depth, walk, |walk| - 1);
        }
      }
    }
  }

  lemma {:induction false} WalkGoesLeft(g: Graph, depth: map<Id, nat>, walk: seq<Id>, n: nat)
    requires EdgesPointRight(g, depth) && IsWalk(g, walk) && 1 <= n < |walk|
    requires depth.Keys == g.Keys && forall id, p :: p in Dependencies(g, id) ==> id in g && p in g
    ensures walk[0] in depth && walk[n] in depth && depth[walk[n]] < depth[walk[0]]
  {
    assert walk[n] in Dependencies(g, walk[n - 1]);
    if n > 1 {
      WalkGoesLeft(g, depth, walk, n - 1);
    }
  }
}
