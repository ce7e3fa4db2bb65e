/**
 * What a search can rely on: it takes the vectors from the index in memory and
 * the metadata from the node table, so it is complete when every indexed id has a
 * node, and right when both tables hold the same call's entry under an id.
 */
module IndexerSearch {
  import opened Wrappers
  import opened Framing
  import opened VectorIndex
  import opened IndexerProtocol

  // ---- The lookup ----

  /** The hits whose id has a node, in order. */
  function WithNodes(hits: seq<Hit>, nodes: Entries): seq<Hit> {
    if hits == [] then []
    else
      var n := |hits| - 1;
      WithNodes(hits[..n], nodes) + if hits[n].id in nodes then [hits[n]] else []
  }

  /** The results are the hits at these positions, which are in order and exactly those of hits with a node. */
  ghost predicate AreKept(hits: seq<Hit>, nodes: Entries, at: seq<nat>, results: seq<Hit>) {
    && |at| == |results| && (forall j, k :: 0 <= j < k < |at| ==> at[j] < at[k])
    && (forall k :: 0 <= k < |at| ==> at[k] < |hits| && results[k] == hits[at[k]])
    && (forall i :: 0 <= i < |hits| ==> (i in at <==> hits[i].id in nodes))
  }

  lemma {:induction false} WithNodesKeeps(hits: seq<Hit>, nodes: Entries) returns (at: seq<nat>)
    ensures AreKept(hits, nodes, at, WithNodes(hits, nodes))
  {
    if hits == [] {
      at := [];
    } else {
      var n := |hits| - 1;
      at := WithNodesKeeps(hits[..n], nodes);
      LastIsKept(hits, nodes, n, at, WithNodes(hits[..n], nodes));
      at := if hits[n].id in nodes then at + [n] else at;
    }
  }

  lemma LastIsKept(hits: seq<Hit>, nodes: Entries, n: nat, at: seq<nat>, results: seq<Hit>)
    requires |hits| == n + 1 && AreKept(hits[..n], nodes, at, results)
    ensures hits[n].id in nodes ==> AreKept(hits, nodes, at + [n], results + [hits[n]])
    ensures hits[n].id !in nodes ==> AreKept(hits, nodes, at, results)
  {
    forall k | 0 <= k < |at| ensures at[k] < n && results[k] == hits[at[k]] {
      assert hits[..n][at[k]] == hits[at[k]];
    }
    forall i | 0 <= i < |hits| ensures i in at <==> i < n && hits[i].id in nodes {
      assert i < n ==> hits[..n][i] == hits[i];
    }
  }

  /** `search` looks up the metadata of each hit and drops a hit without a node, and no other. */
  method LookUp(hits: seq<Hit>, nodes: Entries) returns (results: seq<Hit>)
    ensures results == WithNodes(hits, nodes)
    ensures exists at :: AreKept(hits, nodes, at, results)
  {
    ghost var at := WithNodesKeeps(hits, nodes);
    results := [];
    for i := 0 to |hits|
      invariant results == WithNodes(hits[..i], nodes)
    {
      assert hits[..i + 1][..i] == hits[..i];
      if hits[i].id in nodes {
        results := results + [hits[i]];
      }
    }
    assert hits[..|hits|] == hits;
  }

  /** Nothing is dropped exactly when every hit has a node. */
  lemma {:induction false} DroppedIff(hits: seq<Hit>, nodes: Entries)
    ensures |WithNodes(hits, nodes)| <= |hits|
    ensures (forall i :: 0 <= i < |hits| ==> hits[i].id in nodes) <==> |WithNodes(hits, nodes)| == |hits|
    ensures |WithNodes(hits, nodes)| == |hits| ==> WithNodes(hits, nodes) == hits
  {
    if hits != [] {
      var n := |hits| - 1;
      DroppedIff(hits[..n], nodes);
      assert hits == hits[..n] + [hits[n]];
    }
  }

  // ---- Exactly which states make every search complete ----

  /** Whatever the query and the limit, no hit of the index is dropped. */
  ghost predicate SearchIsComplete(index: Entries, nodes: Entries) {
    forall distances: map<nat, real>, k: nat, hits: seq<Hit> ::
      distances.Keys == index.Keys && IsTopK(distances, k, hits) ==> WithNodes(hits, nodes) == hits
  }

  /** Hits for a set of ids, all equally near. */
  lemma {:induction false} ListHits(ids: set<nat>) returns (hits: seq<Hit>)
    ensures DistinctIds(hits) && |hits| == |ids|
    ensures forall i :: 0 <= i < |hits| ==> hits[i].distance == 0.0 && hits[i].id in ids
    ensures forall id :: id in ids ==> HasHit(hits, id)
  {
    if ids == {} {
      hits := [];
    } else {
      var last :| last in ids;
      var before := ListHits(ids - {last});
      hits := before + [Hit(last, 0.0)];
      forall id | id in ids ensures HasHit(hits, id) {
        if id == last {
          assert hits[|before|].id == id;
        } else {
          assert id in ids - {last} && HasHit(before, id);
          var i :| 0 <= i < |before| && before[i].id == id;
          assert hits[i].id == id;
        }
      }
    }
  }

  /**
   * A search returns all the index finds, for every query and limit, exactly when
   * every indexed id has a node.
   */
  lemma SearchIsCompleteIff(index: Entries, nodes: Entries)
    ensures SearchIsComplete(index, nodes) <==> index.Keys <= nodes.Keys
  {
    if index.Keys <= nodes.Keys {
      forall distances: map<nat, real>, k: nat, hits: seq<Hit>
        | distances.Keys == index.Keys && IsTopK(distances, k, hits)
        ensures WithNodes(hits, nodes) == hits
      {
        DroppedIff(hits, nodes);
      }
    }
    if SearchIsComplete(index, nodes) {
      var distances: map<nat, real> := map id | id in index :: 0.0;
      var hits := ListHits(index.Keys);
      assert |distances| == |distances.Keys| && distances.Keys == index.Keys;
      assert IsTopK(distances, |hits|, hits);
      DroppedIff(hits, nodes);
      forall id | id in index ensures id in nodes {
        assert HasHit(hits, id);
      }
    }
  }

  /** One call on its own whose `put_node` fails leaves an index entry that every search drops. */
  lemma FailedPutLosesAHit(codec: Codec) returns (trace: seq<State>)
    requires Faithful(codec) && ReuseFits(codec)
    ensures IsSequentialRun(codec, trace, Empty, State(2, map[1 := 0], map[], None, [Failed(Some(1))]))
    ensures !SearchIsComplete(trace[|trace| - 1].index, trace[|trace| - 1].nodes)
  {
    var last := AfterCall(codec, Empty, PutFails);
    assert last == State(2, map[1 := 0], map[], None, [Failed(Some(1))]);
    trace := AfterCallIsRun(codec, Empty, PutFails);
    assert 1 in last.index && 1 !in last.nodes;
    SearchIsCompleteIff(last.index, last.nodes);
  }

  // ---- Which calls leave an id without a node ----

  /** The call has inserted its entry, whatever became of it since. */
  ghost predicate HasInserted(s: State, id: nat, c: nat) {
    && c < |s.calls|
    && s.calls[c] in {Inserted(id), Stored(id), Returned(id), Failed(Some(id)), Lost}
  }

  ghost predicate EntriesInv(codec: Codec, s: State) {
    && (forall id :: id in s.index ==> HasInserted(s, id, s.index[id]))
    && LoadedIndex(codec, s.saved).Some?
    && (var loaded := LoadedIndex(codec, s.saved).value; forall id :: id in loaded ==> HasInserted(s, id, loaded[id]))
  }

  lemma InsertedStays(codec: Codec, s: State, t: State, step: Step, id: nat, c: nat)
    requires Next(codec, s, t, step) && HasInserted(s, id, c)
    ensures HasInserted(t, id, c)
  {
  }

  lemma StepKeepsEntries(codec: Codec, s: State, t: State, step: Step)
    requires Faithful(codec) && Fits(codec, s) && EntriesInv(codec, s) && Next(codec, s, t, step)
    ensures EntriesInv(codec, t)
  {
    var loaded := LoadedIndex(codec, s.saved).value;
    SavedIsLoaded(codec, s.index);
    forall id | id in s.index ensures HasInserted(t, id, s.index[id]) {
      InsertedStays(codec, s, t, step, id, s.index[id]);
    }
    forall id | id in loaded ensures HasInserted(t, id, loaded[id]) {
      InsertedStays(codec, s, t, step, id, loaded[id]);
    }
  }

  lemma {:induction false} RunKeepsEntries(codec: Codec, trace: seq<State>, i: nat)
    requires Faithful(codec) && IsRun(codec, trace) && trace[0] == Empty && i < |trace|
    ensures EntriesInv(codec, trace[i])
  {
    if i > 0 {
      RunKeepsEntries(codec, trace, i - 1);
      assert Steps(codec, trace[i - 1], trace[i]);
      var step :| Next(codec, trace[i - 1], trace[i], step);
      StepKeepsEntries(codec, trace[i - 1], trace[i], step);
    }
  }

  /**
   * In every run an indexed id without a node is the entry of a call that has not
   * stored its node yet, failed, or was in flight when a process died.
   */
  lemma MissingNodeIsExplained(codec: Codec, trace: seq<State>, i: nat, id: nat)
    requires Faithful(codec) && IsRun(codec, trace) && trace[0] == Empty && i < |trace|
    requires id in trace[i].index && id !in trace[i].nodes
    ensures trace[i].index[id] < |trace[i].calls|
    ensures trace[i].calls[trace[i].index[id]] in {Inserted(id), Failed(Some(id)), Lost}
  {
    RunKeepsEntries(codec, trace, i);
    RunKeepsInv(codec, trace, i);
    var s, c := trace[i], trace[i].index[id];
    assert HasInserted(s, id, c);
    assert CallInv(s, LoadedIndex(codec, s.saved).value, c);
  }

  /** While no call is between insertion and storing, has failed or is lost, every search is complete. */
  lemma SuccessfulSearchIsComplete(codec: Codec, trace: seq<State>, i: nat)
    requires Faithful(codec) && IsRun(codec, trace) && trace[0] == Empty && i < |trace|
    requires forall c :: 0 <= c < |trace[i].calls| ==>
               var call := trace[i].calls[c]; !call.Inserted? && !call.Failed? && !call.Lost?
    ensures SearchIsComplete(trace[i].index, trace[i].nodes)
  {
    forall id | id in trace[i].index ensures id in trace[i].nodes {
      if id !in trace[i].nodes {
        MissingNodeIsExplained(codec, trace, i, id);
      }
    }
    SearchIsCompleteIff(trace[i].index, trace[i].nodes);
  }

  // ---- Whether vector and metadata of a hit belong to one call ----

  /** Under every id that has a vector and a node, both are entries of one call. */
  ghost predicate Agree(index: Entries, nodes: Entries) {
    forall id :: id in index && id in nodes ==> index[id] == nodes[id]
  }

  ghost predicate AlwaysAgree(trace: seq<State>) {
    forall i :: 0 <= i < |trace| ==> Agree(trace[i].index, trace[i].nodes)
  }

  ghost predicate AgreeInv(codec: Codec, s: State) {
    && Agree(s.index, s.nodes)
    && LoadedIndex(codec, s.saved).Some? && Agree(LoadedIndex(codec, s.saved).value, s.nodes)
  }

  /** With one call in flight its id is above all stored and all saved ones until its node is stored. */
  lemma LiveIdIsNew(codec: Codec, s: State, c: nat)
    requires Inv(codec, s) && SequentialInv(codec, s)
    requires c < |s.calls| && (s.calls[c].Allocated? || s.calls[c].Inserted?)
    ensures s.calls[c].id !in s.nodes && s.calls[c].id !in LoadedIndex(codec, s.saved).value
    ensures s.calls[c].Inserted? ==> HasEntry(s.index, s.calls[c].id, c)
  {
    var id, loaded := s.calls[c].id, LoadedIndex(codec, s.saved).value;
    assert CallInv(s, loaded, c) && LiveIsLatest(s, c);
    assert !IsWithin(id, s.nodes);
  }

  lemma StepKeepsAgree(codec: Codec, s: State, t: State, step: Step)
    requires Faithful(codec) && Fits(codec, s) && Next(codec, s, t, step)
    requires Inv(codec, s) && SequentialInv(codec, s) && AgreeInv(codec, s)
    ensures AgreeInv(codec, t)
  {
    SavedIsLoaded(codec, s.index);
    if step.Insert? || step.PutNode? {
      LiveIdIsNew(codec, s, step.c);
    }
  }

  lemma StepsKeepAgree(codec: Codec, s: State, t: State)
    requires Faithful(codec) && Steps(codec, s, t) && Inv(codec, s) && SequentialInv(codec, s) && AgreeInv(codec, s)
    ensures AgreeInv(codec, t)
  {
    var step :| Next(codec, s, t, step);
    StepKeepsAgree(codec, s, t, step);
  }

  lemma {:induction false} SequentialAgrees(codec: Codec, trace: seq<State>, i: nat)
    requires Faithful(codec) && IsRun(codec, trace) && trace[0] == Empty && i < |trace|
    requires forall j :: 0 <= j < |trace| ==> OneAtATime(trace[j])
    ensures AgreeInv(codec, trace[i])
  {
    if i > 0 {
      var m := i - 1;
      assert Steps(codec, trace[m], trace[i]);
      SequentialAgrees(codec, trace, m);
      RunKeepsInv(codec, trace, m);
      RunKeepsSequential(codec, trace, m);
      StepsKeepAgree(codec, trace[m], trace[i]);
    }
  }

  lemma CrashFreeAgrees(codec: Codec, trace: seq<State>, i: nat)
    requires Faithful(codec) && IsCrashFree(codec, trace) && trace[0] == Empty && i < |trace|
    ensures Agree(trace[i].index, trace[i].nodes)
  {
    RunKeepsSince(codec, trace, i);
    var s := trace[i];
    forall id | id in s.index && id in s.nodes ensures s.index[id] == s.nodes[id] {
      assert MadeBy(Empty, s, id, s.index[id]) && StoredBy(Empty, s, id, s.nodes[id]);
    }
  }

  /**
   * After the id of a lost call was handed out again, its new owner stores a node
   * and is lost too: the reloaded index holds the first call's vector under the
   * id, the node table the second call's metadata.
   */
  lemma ReusedIdMixesEntries(codec: Codec) returns (trace: seq<State>)
    requires Faithful(codec) && ReuseFits(codec) && |codec.writeVectors(map[1 := 0, 2 := 2])| < WORD
    ensures IsHistory(codec, trace, 2, true)
    ensures trace[|trace| - 1].calls == [Returned(1), Lost, Lost]
    ensures HasEntry(trace[|trace| - 1].index, 2, 1) && HasEntry(trace[|trace| - 1].nodes, 2, 2)
  {
    var before := ConcurrentCrashReusesAnId(codec);
    trace := before + MixedStates(codec, map[1 := 0], map[1 := 0, 2 := 1], map[1 := 0, 2 := 2]);
    MixingSteps(codec, map[1 := 0], map[1 := 0, 2 := 1], map[1 := 0, 2 := 2]);
    forall i, j | 0 <= i && j == i + 1 && j < |trace| ensures Steps(codec, trace[i], trace[j]) {
      assert j < |before| ==> Steps(codec, before[i], before[j]);
    }
    forall i | 0 <= i < |trace| ensures CountLive(trace[i].calls) <= 2 {
      if i >= |before| {
        MixedIsNarrow(trace[i].calls);
      }
    }
  }

  function MixedStates(codec: Codec, one: Entries, two: Entries, next: Entries): (states: seq<State>)
    ensures |states| == 3
  {
    var saved := Some(ToFrame(codec, two));
    [ State(3, next, one, saved, [Returned(1), Lost, Inserted(2)]),
      State(3, next, next, saved, [Returned(1), Lost, Stored(2)]),
      State(3, two, next, saved, [Returned(1), Lost, Lost]) ]
  }

  lemma MixedIsNarrow(calls: seq<Call>)
    requires |calls| == 3 && calls[0] == Returned(1)
    ensures CountLive(calls) <= 2
  {
    CountIsBounded(calls[1..]);
  }

  lemma MixingSteps(codec: Codec, one: Entries, two: Entries, next: Entries)
    requires Faithful(codec) && one == map[1 := 0] && two == map[1 := 0, 2 := 1] && next == map[1 := 0, 2 := 2]
    requires |codec.writeVectors(two)| < WORD && |codec.writeVectors(next)| < WORD
    ensures var m := MixedStates(codec, one, two, next);
            && Steps(codec, State(3, two, one, Some(ToFrame(codec, two)), [Returned(1), Lost, Allocated(2)]), m[0])
            && Steps(codec, m[0], m[1]) && Steps(codec, m[1], m[2])
  {
    var m, saved := MixedStates(codec, one, two, next), Some(ToFrame(codec, two));
    var s := State(3, two, one, saved, [Returned(1), Lost, Allocated(2)]);
    assert two[2 := 2] == next && one[2 := 2] == next;
    assert Next(codec, s, m[0], Insert(2));
    assert Next(codec, m[0], m[1], PutNode(2));
    SavedIsLoaded(codec, two);
    assert Abandoned(m[1].calls) == m[2].calls;
    assert IsNextId(next.Keys, 3) by { assert 2 in next.Keys; }
    assert Next(codec, m[1], m[2], Restart);
  }

  /**
   * The vector and the metadata of every hit are from one call in all histories
   * exactly when calls come one at a time or the process never crashes.
   */
  lemma AgreementIff(codec: Codec, w: nat, mayCrash: bool)
    requires Faithful(codec) && ReuseFits(codec) && |codec.writeVectors(map[1 := 0, 2 := 2])| < WORD
    ensures w <= 1 || !mayCrash <==> forall trace :: IsHistory(codec, trace, w, mayCrash) ==> AlwaysAgree(trace)
  {
    if w <= 1 || !mayCrash {
      forall trace: seq<State> | IsHistory(codec, trace, w, mayCrash) ensures AlwaysAgree(trace) {
        if mayCrash {
          NarrowIsSequential(trace);
        }
        forall i | 0 <= i < |trace| ensures Agree(trace[i].index, trace[i].nodes) {
          if mayCrash {
            SequentialAgrees(codec, trace, i);
          } else {
            CrashFreeAgrees(codec, trace, i);
          }
        }
      }
    } else {
      var trace := ReusedIdMixesEntries(codec);
      assert IsHistory(codec, trace, w, mayCrash);
      assert !Agree(trace[|trace| - 1].index, trace[|trace| - 1].nodes);
    }
  }
}
