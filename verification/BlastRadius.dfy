/**
 * The dependency graph of files and its blast radius. Files are identified by
 * name; hash maps are walked in an arbitrary order, and the order of paths that
 * the result is sorted by is any total order.
 */
module BlastRadius {
  import opened Wrappers
  import opened Tasks

  type Order = (Id, Id) -> bool

  /** `leq` is a total order. */
  ghost predicate IsTotalOrder(leq: Order) {
    && (forall a :: leq(a, a))
    && (forall a, b :: leq(a, b) && leq(b, a) ==> a == b)
    && (forall a, b, c :: leq(a, b) && leq(b, c) ==> leq(a, c))
    && (forall a, b :: leq(a, b) || leq(b, a))
  }

  predicate Imports(edges: Graph, source: Id, target: Id) {
    source in edges && target in edges[source]
  }

  /** A non-empty import path leads from `file` to `target`. */
  ghost predicate Reaches(edges: Graph, file: Id, target: Id) {
    exists walk :: IsWalk(edges, walk) && Connects(walk, file, target)
  }

  ghost predicate Connects(walk: seq<Id>, file: Id, target: Id) {
    |walk| >= 2 && walk[0] == file && walk[|walk| - 1] == target
  }

  lemma ReachesByStep(edges: Graph, file: Id, next: Id, target: Id)
    requires Imports(edges, file, next) && (next == target || Reaches(edges, next, target))
    ensures Reaches(edges, file, target)
  {
    if next == target {
      var walk := [file, target];
      assert IsWalk(edges, walk) && Connects(walk, file, target);
    } else {
      var rest :| IsWalk(edges, rest) && Connects(rest, next, target);
      var walk := [file] + rest;
      assert IsWalk(edges, walk) && Connects(walk, file, target);
    }
  }

  /** The set holds whatever imports the target or a member directly. */
  ghost predicate IsClosedUnder(edges: Graph, target: Id, files: set<Id>) {
    forall f, g :: Imports(edges, f, g) && (g == target || g in files) ==> f in files
  }

  lemma {:induction false} ClosedSetHoldsPaths(edges: Graph, target: Id, files: set<Id>, walk: seq<Id>)
    requires IsClosedUnder(edges, target, files) && IsWalk(edges, walk)
    requires |walk| >= 2 && walk[|walk| - 1] == target
    ensures walk[0] in files
  {
    assert Imports(edges, walk[0], walk[1]) by { assert walk[1] in Dependencies(edges, walk[0]); }
    if |walk| > 2 {
      ClosedSetHoldsPaths(edges, target, files, walk[1..]);
    }
  }

  // ---- Sorting ----

  ghost predicate IsSorted(leq: Order, s: seq<Id>) {
    forall i, j :: 0 <= i < j < |s| ==> leq(s[i], s[j])
  }

  /** Sorted, and without duplicates. */
  ghost predicate IsStrictlySorted(leq: Order, s: seq<Id>) {
    IsSorted(leq, s) && Distinct(s)
  }

  function InsertFile(leq: Order, f: Id, s: seq<Id>): seq<Id> {
    if s == [] then [f]
    else if leq(f, s[0]) then [f] + s
    else [s[0]] + InsertFile(leq, f, s[1..])
  }

  function SortFiles(leq: Order, s: seq<Id>): seq<Id> {
    if s == [] then [] else InsertFile(leq, s[0], SortFiles(leq, s[1..]))
  }

  lemma {:induction false} InsertFileMembers(leq: Order, f: Id, s: seq<Id>)
    ensures forall x :: x in InsertFile(leq, f, s) <==> x == f || x in s
  {
    if s != [] && !leq(f, s[0]) {
      InsertFileMembers(leq, f, s[1..]);
    }
  }

  /** A first element below a sorted list of others. */
  lemma SortedFromFirst(leq: Order, f: Id, s: seq<Id>)
    requires IsStrictlySorted(leq, s) && f !in s && forall x :: x in s ==> leq(f, x)
    ensures IsStrictlySorted(leq, [f] + s)
  {
    var longer := [f] + s;
    forall i, j | 0 <= i < j < |longer| ensures leq(longer[i], longer[j]) && longer[i] != longer[j] {
      assert longer[j] == s[j - 1];
      assert longer[j] in s;
    }
  }

  lemma {:induction false} InsertFileSorts(leq: Order, f: Id, s: seq<Id>)
    requires IsTotalOrder(leq) && IsStrictlySorted(leq, s) && f !in s
    ensures IsStrictlySorted(leq, InsertFile(leq, f, s))
  {
    if s != [] {
      assert forall x :: x in s[1..] ==> leq(s[0], x);
      if leq(f, s[0]) {
        SortedFromFirst(leq, f, s);
      } else {
        InsertFileSorts(leq, f, s[1..]);
        InsertFileMembers(leq, f, s[1..]);
        SortedFromFirst(leq, s[0], InsertFile(leq, f, s[1..]));
      }
    }
  }

  lemma {:induction false} SortFilesSorts(leq: Order, s: seq<Id>)
    requires IsTotalOrder(leq) && Distinct(s)
    ensures IsStrictlySorted(leq, SortFiles(leq, s))
    ensures forall x :: x in SortFiles(leq, s) <==> x in s
  {
    if s != [] {
      SortFilesSorts(leq, s[1..]);
      InsertFileSorts(leq, s[0], SortFiles(leq, s[1..]));
      InsertFileMembers(leq, s[0], SortFiles(leq, s[1..]));
    }
  }

  lemma TailMembers(s: seq<Id>)
    requires Distinct(s) && s != []
    ensures forall x :: x in s[1..] <==> x in s && x != s[0]
  {
    forall x ensures x in s[1..] <==> x in s && x != s[0] {
      assert x in s <==> x == s[0] || x in s[1..] by { assert s == [s[0]] + s[1..]; }
    }
  }

  /** A strictly sorted list is determined by its members, so no iteration order shows in it. */
  lemma {:induction false} StrictlySortedIsUnique(leq: Order, a: seq<Id>, b: seq<Id>)
    requires IsTotalOrder(leq) && IsStrictlySorted(leq, a) && IsStrictlySorted(leq, b)
    requires forall x :: x in a <==> x in b
    ensures a == b
  {
    assert b == [] || b[0] in a;
    if a != [] {
      assert a[0] in b && b[0] in a;
      assert a[0] == b[0];
      assert a == [a[0]] + a[1..] && b == [b[0]] + b[1..];
      TailMembers(a);
      TailMembers(b);
      StrictlySortedIsUnique(leq, a[1..], b[1..]);
    }
  }

  // ---- The reverse graph ----

  /** `reverse` lists exactly the files of `done` importing each target. */
  ghost predicate IsReverse(edges: Graph, done: set<Id>, reverse: Graph) {
    forall d, s :: Imports(reverse, d, s) <==> s in done && Imports(edges, s, d)
  }

  method ReverseEdges(edges: Graph) returns (reverse: Graph)
    ensures IsReverse(edges, edges.Keys, reverse)
  {
    reverse := map[];
    var todo := edges.Keys;
    while todo != {}
      invariant todo <= edges.Keys && IsReverse(edges, edges.Keys - todo, reverse)
    {
      var source :| source in todo;
      reverse := ReverseFrom(source, edges[source], reverse);
      todo := todo - {source};
    }
  }

  method ReverseFrom(source: Id, deps: seq<Id>, before: Graph) returns (reverse: Graph)
    ensures forall d, s :: Imports(reverse, d, s) <==> Imports(before, d, s) || (s == source && d in deps)
  {
    reverse := before;
    for i := 0 to |deps|
      invariant forall d, s :: Imports(reverse, d, s) <==> Imports(before, d, s) || (s == source && d in deps[..i])
    {
      var dep := deps[i];
      assert deps[..i + 1] == deps[..i] + [dep];
      AddImporter(reverse, dep, source);
      reverse := reverse[dep := Dependencies(reverse, dep) + [source]];
    }
  }

  lemma AddImporter(reverse: Graph, dep: Id, source: Id)
    ensures forall d, s :: Imports(reverse[dep := Dependencies(reverse, dep) + [source]], d, s) <==>
              Imports(reverse, d, s) || (s == source && d == dep)
  {
    var listed := Dependencies(reverse, dep) + [source];
    forall d, s ensures Imports(reverse[dep := listed], d, s) <==> Imports(reverse, d, s) || (s == source && d == dep) {
      assert s in listed <==> s in Dependencies(reverse, dep) || s == source;
    }
  }

  // ---- Edges as pairs ----

  ghost function PairsOf(edges: Graph, files: set<Id>): set<(Id, Id)> {
    set f, d | f in edges && f in files && d in edges[f] :: (f, d)
  }

  ghost function PairsFrom(source: Id, targets: seq<Id>): (pairs: set<(Id, Id)>)
    ensures forall p :: p in pairs <==> p.0 == source && p.1 in targets
    ensures Distinct(targets) ==> |pairs| == |targets|
  {
    if targets == [] then {}
    else
      var n := |targets| - 1;
      PairsFrom(source, targets[..n]) + {(source, targets[n])}
  }

  lemma PairsGrow(edges: Graph, files: set<Id>, file: Id)
    requires file in edges && file !in files && Distinct(edges[file])
    ensures |PairsOf(edges, files + {file})| == |PairsOf(edges, files)| + |edges[file]|
  {
    var more := PairsFrom(file, edges[file]);
    assert PairsOf(edges, files + {file}) == PairsOf(edges, files) + more;
    assert PairsOf(edges, files) !! more;
  }

  // ---- The worklist ----

  ghost predicate AllReach(edges: Graph, target: Id, files: set<Id>) {
    forall f :: f in files ==> Reaches(edges, f, target)
  }

  /** What imports the target, or a visited file that is neither queued nor `current`, is visited. */
  ghost predicate IsExplored(edges: Graph, target: Id, visited: set<Id>, queue: seq<Id>, current: Option<Id>) {
    && (forall f :: f in queue ==> f in visited)
    && (forall f, g :: Imports(edges, f, g) && (g == target || (g in visited && g !in queue && current != Some(g))) ==>
          f in visited)
  }

  /** Marks and queues the dependents of `current` not seen before. */
  method Visit(edges: Graph, target: Id, dependents: seq<Id>, current: Id, visited: set<Id>, queue: seq<Id>)
    returns (visited': set<Id>, queue': seq<Id>)
    requires forall s :: s in dependents <==> Imports(edges, s, current)
    requires current in visited && visited <= edges.Keys && AllReach(edges, target, visited)
    requires IsExplored(edges, target, visited, queue, Some(current))
    ensures visited <= visited' <= edges.Keys && AllReach(edges, target, visited')
    ensures IsExplored(edges, target, visited', queue', None)
    ensures visited' == visited ==> queue' == queue
  {
    visited', queue' := visited, queue;
    for i := 0 to |dependents|
      invariant visited <= visited' <= edges.Keys && AllReach(edges, target, visited')
      invariant IsExplored(edges, target, visited', queue', Some(current))
      invariant forall k :: 0 <= k < i ==> dependents[k] in visited'
      invariant visited' == visited ==> queue' == queue
    {
      var dep := dependents[i];
      if dep !in visited' {
        ReachesByStep(edges, dep, current, target);
        visited' := visited' + {dep};
        queue' := queue' + [dep];
      }
    }
  }

  lemma DependentsReach(edges: Graph, target: Id, files: set<Id>)
    requires forall f :: f in files ==> Imports(edges, f, target)
    ensures AllReach(edges, target, files)
  {
    forall f | f in files ensures Reaches(edges, f, target) {
      ReachesByStep(edges, f, target, target);
    }
  }

  lemma VisitedIsReached(edges: Graph, target: Id, visited: set<Id>)
    requires AllReach(edges, target, visited) && IsExplored(edges, target, visited, [], None)
    ensures forall f :: f in visited <==> Reaches(edges, f, target)
  {
    forall f | Reaches(edges, f, target) ensures f in visited {
      var walk :| IsWalk(edges, walk) && Connects(walk, f, target);
      ClosedSetHoldsPaths(edges, target, visited, walk);
    }
  }

  lemma NothingReaches(edges: Graph, target: Id)
    requires forall f :: !Imports(edges, f, target)
    ensures forall f :: !Reaches(edges, f, target)
  {
    assert AllReach(edges, target, {});
    VisitedIsReached(edges, target, {});
  }

  /** The members of a set, in whatever order the hash map yields its keys. */
  method ListFiles(files: set<Id>) returns (listed: seq<Id>)
    ensures Distinct(listed) && forall f :: f in listed <==> f in files
  {
    listed := [];
    var todo := files;
    while todo != {}
      invariant todo <= files && Distinct(listed)
      invariant forall f :: f in listed <==> f in files && f !in todo
    {
      var f :| f in todo;
      listed := listed + [f];
      todo := todo - {f};
    }
  }

  // ---- The graph ----

  class DependencyGraph {
    const leq: Order
    var edges: Graph
    var nodes: set<Id>

    ghost predicate Valid()
      reads this
    {
      && IsTotalOrder(leq) && edges.Keys <= nodes
      && forall f :: f in edges ==> Distinct(edges[f]) && forall d :: d in edges[f] ==> d in nodes
    }

    ghost function ImportPairs(): (r: set<(Id, Id)>)
      reads this
    {
      set f, d | f in edges && d in edges[f] :: (f, d)
    }

    constructor (leq: Order)
      requires IsTotalOrder(leq)
      ensures Valid() && nodes == {} && ImportPairs() == {} && this.leq == leq
    {
      this.leq := leq;
      edges, nodes := map[], {};
    }

    method AddFile(file: Id)
      requires Valid()
      modifies this
      ensures Valid() && nodes == old(nodes) + {file} && ImportPairs() == old(ImportPairs())
    {
      nodes := nodes + {file};
      if file !in edges {
        edges := edges[file := []];
      }
    }

    method AddDependency(source: Id, target: Id)
      requires Valid()
      modifies this
      ensures Valid() && nodes == old(nodes) + {source, target}
      ensures ImportPairs() == old(ImportPairs()) + {(source, target)}
    {
      nodes := nodes + {source};
      nodes := nodes + {target};
      if source !in edges {
        edges := edges[source := []];
      }
      if target !in edges[source] {
        edges := edges[source := edges[source] + [target]];
      }
    }

    /** The number of distinct import pairs. */
    method EdgeCount() returns (count: nat)
      requires Valid()
      ensures count == |ImportPairs()|
    {
      count := 0;
      var todo := edges.Keys;
      while todo != {}
        invariant todo <= edges.Keys
        invariant count == |PairsOf(edges, edges.Keys - todo)|
      {
        var file :| file in todo;
        PairsGrow(edges, edges.Keys - todo, file);
        assert edges.Keys - todo + {file} == edges.Keys - (todo - {file});
        count := count + |edges[file]|;
        todo := todo - {file};
      }
      assert ImportPairs() == PairsOf(edges, edges.Keys - todo);
    }

    /**
     * The files with a non-empty import path to the target, sorted and without
     * duplicates: the target itself only when it lies on a cycle, nothing for a
     * target the graph does not know.
     */
    method GetBlastRadius(target: Id) returns (result: seq<Id>)
      requires Valid()
      ensures IsStrictlySorted(leq, result)
      ensures forall f :: f in result <==> Reaches(edges, f, target)
    {
      if target !in nodes {
        NothingReaches(edges, target);
        return [];
      }
      var reverse := ReverseEdges(edges);
      assert forall f :: Imports(edges, f, target) <==> Imports(reverse, target, f);
      if target !in reverse {
        NothingReaches(edges, target);
        return [];
      }
      var queue := reverse[target];
      var visited := set f | f in queue;
      assert forall f :: f in visited ==> Imports(reverse, target, f);
      assert AllReach(edges, target, visited) by { DependentsReach(edges, target, visited); }
      while queue != []
        invariant visited <= edges.Keys && AllReach(edges, target, visited)
        invariant IsExplored(edges, target, visited, queue, None)
        decreases edges.Keys - visited, |queue|
      {
        var current := queue[|queue| - 1];
        queue := queue[..|queue| - 1];
        assert forall f :: Imports(edges, f, current) <==> Imports(reverse, current, f);
        if current in reverse {
          visited, queue := Visit(edges, target, reverse[current], current, visited, queue);
        }
      }
      VisitedIsReached(edges, target, visited);
      var listed := ListFiles(visited);
      result := SortFiles(leq, listed);
      SortFilesSorts(leq, listed);
    }
  }
}
