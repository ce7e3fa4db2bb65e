/**
 * `index_text` as a protocol: concurrent calls that allocate an id, insert into
 * the in-memory index, commit the node and save the framed index, with failures
 * at every step and crashes followed by a restart. Each mutex section and each
 * database commit is one atomic step. An entry stands for the call that made it.
 */
module IndexerProtocol {
  import opened Wrappers
  import opened Framing

  type Entries = map<nat, nat>   // id -> the call that made the entry

  datatype Call =
    | Starting                   // embedding not computed yet
    | Allocated(id: nat)
    | Inserted(id: nat)
    | Stored(id: nat)
    | Returned(id: nat)
    | Failed(burned: Option<nat>)
    | Lost                       // in flight when the process died
  {
    predicate Live() { Starting? || Allocated? || Inserted? || Stored? }

    /** The id handed out to the call, while the process that did so is alive. */
    function Id(): Option<nat> {
      match this
      case Starting | Lost => None
      case Failed(burned) => burned
      case Allocated(id) => Some(id)
      case Inserted(id) => Some(id)
      case Stored(id) => Some(id)
      case Returned(id) => Some(id)
    }
  }

  datatype State = State(nextId: nat, index: Entries, nodes: Entries, saved: Option<Bytes>, calls: seq<Call>)

  /** The JSON encoders and decoders of the two payloads of a frame. */
  datatype Codec = Codec(dimension: nat,
                         writeConfig: nat -> Bytes, readConfig: Bytes -> Option<nat>,
                         writeVectors: Entries -> Bytes, readVectors: Bytes -> Option<Entries>)

  ghost predicate Faithful(codec: Codec) {
    && codec.readConfig(codec.writeConfig(codec.dimension)) == Some(codec.dimension)
    && |codec.writeConfig(codec.dimension)| < WORD
    && forall v :: codec.readVectors(codec.writeVectors(v)) == Some(v)
  }

  function ToFrame(codec: Codec, index: Entries): Bytes {
    Frame(codec.writeConfig(codec.dimension), codec.writeVectors(index))
  }

  /** The index a restart would load; `None` if it fails to. */
  function LoadedIndex(codec: Codec, saved: Option<Bytes>): Option<Entries> {
    match saved
    case None => Some(map[])
    case Some(data) =>
      match Restored(data, codec.readConfig, codec.readVectors)
      case Success((_, vectors)) => Some(vectors)
      case Failure(_) => None
  }

  /** The next id after a restart: one more than the largest node id, or 1. */
  ghost predicate IsNextId(ids: set<nat>, next: nat) {
    && (forall id :: id in ids ==> id < next)
    && (if ids == {} then next == 1 else next > 0 && next - 1 in ids)
  }

  /** The maximum over the listed node ids, as `new` and `with_db_path` compute it. */
  method NextFreeId(ids: seq<nat>, ghost keys: set<nat>) returns (next: nat)
    requires forall id :: id in keys <==> id in ids
    ensures IsNextId(keys, next)
  {
    var largest: Option<nat> := None;
    for i := 0 to |ids|
      invariant largest.None? <==> i == 0
      invariant largest.Some? ==> largest.value in ids[..i] && forall j :: 0 <= j < i ==> ids[j] <= largest.value
    {
      if largest.None? || ids[i] >= largest.value {
        largest := Some(ids[i]);
      }
    }
    next := if largest.Some? then largest.value + 1 else 1;
    assert ids != [] ==> ids[0] in keys && next - 1 in keys;
  }

  // ---- Steps ----

  datatype Step =
    | Begin
    | Allocate(c: nat)
    | Insert(c: nat)
    | PutNode(c: nat)
    | Save(c: nat)
    | Fail(c: nat)
    | Restart

  ghost predicate Next(codec: Codec, s: State, t: State, step: Step) {
    match step
    case Begin => t == s.(calls := s.calls + [Starting])
    case Allocate(c) =>
      && c < |s.calls| && s.calls[c].Starting?
      && t == s.(nextId := s.nextId + 1, calls := s.calls[c := Allocated(s.nextId)])
    case Insert(c) =>
      && c < |s.calls| && s.calls[c].Allocated?
      && t == s.(index := s.index[s.calls[c].id := c], calls := s.calls[c := Inserted(s.calls[c].id)])
    case PutNode(c) =>
      && c < |s.calls| && s.calls[c].Inserted?
      && t == s.(nodes := s.nodes[s.calls[c].id := c], calls := s.calls[c := Stored(s.calls[c].id)])
    case Save(c) =>
      && c < |s.calls| && s.calls[c].Stored?
      && t == s.(saved := Some(ToFrame(codec, s.index)), calls := s.calls[c := Returned(s.calls[c].id)])
    case Fail(c) =>
      && c < |s.calls| && s.calls[c].Live()
      && t == s.(calls := s.calls[c := Failed(s.calls[c].Id())])
    case Restart =>
      && LoadedIndex(codec, s.saved).Some?
      && IsNextId(s.nodes.Keys, t.nextId)
      && t == State(t.nextId, LoadedIndex(codec, s.saved).value, s.nodes, s.saved, Abandoned(s.calls))
  }

  /** A crash loses the calls in flight. */
  function Abandoned(calls: seq<Call>): (r: seq<Call>)
    ensures |r| == |calls|
    ensures forall c :: 0 <= c < |calls| ==> r[c] == if calls[c].Live() then Lost else calls[c]
  {
    seq(|calls|, c requires 0 <= c < |calls| => if calls[c].Live() then Lost else calls[c])
  }

  /** The serialized index is below the size its length prefix can express. */
  ghost predicate Fits(codec: Codec, s: State) {
    |codec.writeVectors(s.index)| < WORD
  }

  ghost predicate Steps(codec: Codec, s: State, t: State) {
    Fits(codec, s) && exists step :: Next(codec, s, t, step)
  }

  ghost predicate IsRun(codec: Codec, trace: seq<State>) {
    && |trace| > 0
    && forall i, j :: 0 <= i && j == i + 1 && j < |trace| ==> Steps(codec, trace[i], trace[j])
  }

  const Empty := State(1, map[], map[], None, [])

  /** Saving and loading is the identity for an index that fits. */
  lemma {:induction false} SavedIsLoaded(codec: Codec, index: Entries)
    requires Faithful(codec) && |codec.writeVectors(index)| < WORD
    ensures LoadedIndex(codec, Some(ToFrame(codec, index))) == Some(index)
  {
    IndexRoundTrip(codec.dimension, index, codec.writeConfig, codec.writeVectors, codec.readConfig, codec.readVectors);
  }

  // ---- Every run: what a call returned is durable ----

  ghost predicate HasEntry(m: Entries, id: nat, c: nat) {
    id in m && m[id] == c
  }

  ghost predicate CallInv(s: State, loaded: Entries, c: nat)
    requires c < |s.calls|
  {
    match s.calls[c]
    case Allocated(id) => id < s.nextId && id !in s.nodes
    case Inserted(id) => id < s.nextId && id !in s.nodes && HasEntry(s.index, id, c)
    case Stored(id) => HasEntry(s.index, id, c) && HasEntry(s.nodes, id, c)
    case Returned(id) => HasEntry(s.index, id, c) && HasEntry(s.nodes, id, c) && HasEntry(loaded, id, c)
    case _ => true
  }

  ghost predicate LiveIdsDiffer(s: State) {
    forall c, d :: 0 <= c < d < |s.calls| && s.calls[c].Live() && s.calls[d].Live() && s.calls[c].Id().Some? ==>
      s.calls[c].Id() != s.calls[d].Id()
  }

  ghost predicate Inv(codec: Codec, s: State) {
    && LoadedIndex(codec, s.saved).Some?
    && (forall id :: id in s.nodes ==> id < s.nextId)
    && (forall c :: 0 <= c < |s.calls| ==> CallInv(s, LoadedIndex(codec, s.saved).value, c))
    && LiveIdsDiffer(s)
  }

  lemma {:induction false} StepKeepsInv(codec: Codec, s: State, t: State, step: Step)
    requires Faithful(codec) && Fits(codec, s) && Inv(codec, s) && Next(codec, s, t, step)
    ensures Inv(codec, t)
  {
    var loaded := LoadedIndex(codec, s.saved).value;
    SavedIsLoaded(codec, s.index);
    forall c | 0 <= c < |t.calls| ensures CallInv(t, LoadedIndex(codec, t.saved).value, c) {
      assert c < |s.calls| ==> CallInv(s, loaded, c);
      assert !step.Begin? && !step.Restart? ==> CallInv(s, loaded, step.c);
    }
    assert !step.Begin? && !step.Restart? ==> CallInv(s, loaded, step.c);
    forall c, d | 0 <= c < d < |t.calls| && t.calls[c].Live() && t.calls[d].Live() && t.calls[c].Id().Some?
      ensures t.calls[c].Id() != t.calls[d].Id()
    {
      assert CallInv(s, loaded, c);
      assert d < |s.calls| ==> CallInv(s, loaded, d);
    }
  }

  lemma {:induction false} RunKeepsInv(codec: Codec, trace: seq<State>, i: nat)
    requires Faithful(codec) && IsRun(codec, trace) && i < |trace| && Inv(codec, trace[0])
    ensures Inv(codec, trace[i])
  {
    if i > 0 {
      RunKeepsInv(codec, trace, i - 1);
      assert Steps(codec, trace[i - 1], trace[i]);
      var step :| Next(codec, trace[i - 1], trace[i], step);
      StepKeepsInv(codec, trace[i - 1], trace[i], step);
    }
  }

  lemma {:induction false} ReturnIsFinal(codec: Codec, trace: seq<State>, i: nat, j: nat, c: nat)
    requires IsRun(codec, trace) && i <= j < |trace| && c < |trace[i].calls| && trace[i].calls[c].Returned?
    ensures c < |trace[j].calls| && trace[j].calls[c] == trace[i].calls[c]
  {
    if i < j {
      ReturnIsFinal(codec, trace, i, j - 1, c);
      assert Steps(codec, trace[j - 1], trace[j]);
    }
  }

  /**
   * Durability: once a call returned an id, in every later state, whatever runs
   * beside it, fails or crashes, the node table, the index in memory and the
   * index a restart would load all hold that call's entry under that id.
   */
  lemma {:induction false} ReturnedIsDurable(codec: Codec, trace: seq<State>, i: nat, j: nat, c: nat)
    requires Faithful(codec) && IsRun(codec, trace) && trace[0] == Empty
    requires i <= j < |trace| && c < |trace[i].calls| && trace[i].calls[c].Returned?
    ensures var id, loaded := trace[i].calls[c].id, LoadedIndex(codec, trace[j].saved);
            && HasEntry(trace[j].nodes, id, c) && HasEntry(trace[j].index, id, c)
            && loaded.Some? && HasEntry(loaded.value, id, c)
  {
    RunKeepsInv(codec, trace, j);
    ReturnIsFinal(codec, trace, i, j, c);
    assert CallInv(trace[j], LoadedIndex(codec, trace[j].saved).value, c);
  }

  /** No id is returned by two calls, even across crashes. */
  lemma {:induction false} ReturnedIdsDiffer(codec: Codec, trace: seq<State>, i: nat, c: nat, d: nat)
    requires Faithful(codec) && IsRun(codec, trace) && trace[0] == Empty && i < |trace|
    requires c < d < |trace[i].calls| && trace[i].calls[c].Returned? && trace[i].calls[d].Returned?
    ensures trace[i].calls[c].id != trace[i].calls[d].id
  {
    ReturnedIsDurable(codec, trace, i, i, c);
    ReturnedIsDurable(codec, trace, i, i, d);
  }

  // ---- Runs without a crash: ids are distinct, and success means agreement ----

  /** A quiet state in which the node table, the index and its saved form agree. */
  ghost predicate Consistent(codec: Codec, s: State) {
    && s.index == s.nodes && LoadedIndex(codec, s.saved) == Some(s.index)
    && (forall id :: id in s.index ==> id < s.nextId)
    && forall c :: 0 <= c < |s.calls| ==> !s.calls[c].Live()
  }

  ghost predicate Includes(m: Entries, sub: Entries) {
    forall id :: id in sub ==> HasEntry(m, id, sub[id])
  }

  /** The entry is from before, or made by a call since, which has got that far or failed. */
  ghost predicate MadeBy(base: State, s: State, id: nat, c: nat) {
    || HasEntry(base.index, id, c)
    || (|base.calls| <= c < |s.calls| && s.calls[c].Id() == Some(id) && !s.calls[c].Allocated?)
  }

  ghost predicate StoredBy(base: State, s: State, id: nat, c: nat) {
    MadeBy(base, s, id, c) && (HasEntry(base.index, id, c) || !s.calls[c].Inserted?)
  }

  ghost predicate NewCallInv(base: State, s: State, loaded: Entries, c: nat)
    requires c < |s.calls|
  {
    && (s.calls[c].Id().Some? ==> base.nextId <= s.calls[c].Id().value < s.nextId)
    && (s.calls[c].Inserted? || s.calls[c].Stored? || s.calls[c].Returned? ==> HasEntry(s.index, s.calls[c].id, c))
    && (s.calls[c].Stored? || s.calls[c].Returned? ==> HasEntry(s.nodes, s.calls[c].id, c))
    && (s.calls[c].Returned? ==> HasEntry(loaded, s.calls[c].id, c))
  }

  ghost predicate IdsDiffer(s: State, from: nat) {
    forall c, d :: from <= c < d < |s.calls| && s.calls[c].Id().Some? ==> s.calls[c].Id() != s.calls[d].Id()
  }

  ghost predicate SinceInv(codec: Codec, base: State, s: State) {
    && base.nextId <= s.nextId && |base.calls| <= |s.calls|
    && LoadedIndex(codec, s.saved).Some?
    && (var loaded := LoadedIndex(codec, s.saved).value;
        && Includes(loaded, base.index) && Includes(s.index, loaded) && Includes(s.nodes, base.index)
        && (forall c :: |base.calls| <= c < |s.calls| ==> NewCallInv(base, s, loaded, c)))
    && (forall id :: id in s.index ==> MadeBy(base, s, id, s.index[id]))
    && (forall id :: id in s.nodes ==> StoredBy(base, s, id, s.nodes[id]))
    && IdsDiffer(s, |base.calls|)
  }

  ghost predicate SinceStep(codec: Codec, base: State, s: State, t: State, step: Step) {
    && Faithful(codec) && Fits(codec, s) && Consistent(codec, base) && SinceInv(codec, base, s)
    && Next(codec, s, t, step) && !step.Restart?
    && (!step.Begin? ==> |base.calls| <= step.c)
  }

  lemma AllocatedIsNew(codec: Codec, base: State, s: State, c: nat)
    requires Consistent(codec, base) && SinceInv(codec, base, s) && |base.calls| <= c < |s.calls|
    ensures s.calls[c].Allocated? ==> s.calls[c].id !in s.index
    ensures s.calls[c].Allocated? || s.calls[c].Inserted? ==> s.calls[c].id !in s.nodes
  {
    if s.calls[c].Allocated? || s.calls[c].Inserted? {
      var id := s.calls[c].id;
      assert NewCallInv(base, s, LoadedIndex(codec, s.saved).value, c);
      if id in s.index {
        assert MadeBy(base, s, id, s.index[id]);
      }
    }
  }

  lemma SinceNewCalls(codec: Codec, base: State, s: State, t: State, step: Step, c: nat)
    requires SinceStep(codec, base, s, t, step) && |base.calls| <= c < |t.calls|
    ensures LoadedIndex(codec, t.saved).Some? && NewCallInv(base, t, LoadedIndex(codec, t.saved).value, c)
  {
    var loaded := LoadedIndex(codec, s.saved).value;
    SavedIsLoaded(codec, s.index);
    if !step.Begin? {
      AllocatedIsNew(codec, base, s, step.c);
      assert NewCallInv(base, s, loaded, step.c);
    }
    assert c < |s.calls| ==> NewCallInv(base, s, loaded, c);
  }

  lemma SinceEntries(codec: Codec, base: State, s: State, t: State, step: Step)
    requires SinceStep(codec, base, s, t, step)
    ensures forall id :: id in t.index ==> MadeBy(base, t, id, t.index[id])
    ensures forall id :: id in t.nodes ==> StoredBy(base, t, id, t.nodes[id])
  {
    forall id | id in t.index ensures MadeBy(base, t, id, t.index[id]) {
      assert id in s.index ==> MadeBy(base, s, id, s.index[id]);
    }
    forall id | id in t.nodes ensures StoredBy(base, t, id, t.nodes[id]) {
      assert id in s.nodes ==> StoredBy(base, s, id, s.nodes[id]);
    }
  }

  lemma SinceIds(codec: Codec, base: State, s: State, t: State, step: Step)
    requires SinceStep(codec, base, s, t, step)
    ensures IdsDiffer(t, |base.calls|)
  {
    forall c, d | |base.calls| <= c < d < |t.calls| && t.calls[c].Id().Some?
      ensures t.calls[c].Id() != t.calls[d].Id()
    {
      assert NewCallInv(base, s, LoadedIndex(codec, s.saved).value, c);
      assert d < |s.calls| ==> NewCallInv(base, s, LoadedIndex(codec, s.saved).value, d);
    }
  }

  lemma SinceIncludes(codec: Codec, base: State, s: State, t: State, step: Step)
    requires SinceStep(codec, base, s, t, step)
    ensures base.nextId <= t.nextId && |base.calls| <= |t.calls| && LoadedIndex(codec, t.saved).Some?
    ensures var loaded := LoadedIndex(codec, t.saved).value;
            Includes(loaded, base.index) && Includes(t.index, loaded) && Includes(t.nodes, base.index)
  {
    SavedIsLoaded(codec, s.index);
    if !step.Begin? {
      AllocatedIsNew(codec, base, s, step.c);
    }
  }

  lemma StepKeepsSince(codec: Codec, base: State, s: State, t: State, step: Step)
    requires SinceStep(codec, base, s, t, step)
    ensures SinceInv(codec, base, t)
  {
    SinceIncludes(codec, base, s, t, step);
    SinceEntries(codec, base, s, t, step);
    SinceIds(codec, base, s, t, step);
    forall c | |base.calls| <= c < |t.calls| ensures NewCallInv(base, t, LoadedIndex(codec, t.saved).value, c) {
      SinceNewCalls(codec, base, s, t, step, c);
    }
  }

  /** A run without a crash: the step that would lose the calls in flight is never taken. */
  ghost predicate IsCrashFree(codec: Codec, trace: seq<State>) {
    && IsRun(codec, trace)
    && forall i, j :: 0 <= i && j == i + 1 && j < |trace| ==>
         exists step :: Next(codec, trace[i], trace[j], step) && !step.Restart?
  }

  lemma {:induction false} RunKeepsSince(codec: Codec, trace: seq<State>, i: nat)
    requires Faithful(codec) && IsCrashFree(codec, trace) && Consistent(codec, trace[0]) && i < |trace|
    ensures SinceInv(codec, trace[0], trace[i])
    ensures forall c :: 0 <= c < |trace[0].calls| && c < |trace[i].calls| ==> !trace[i].calls[c].Live()
  {
    if i > 0 {
      RunKeepsSince(codec, trace, i - 1);
      assert Steps(codec, trace[i - 1], trace[i]);
      var step :| Next(codec, trace[i - 1], trace[i], step) && !step.Restart?;
      StepKeepsSince(codec, trace[0], trace[i - 1], trace[i], step);
    }
  }

  /** The call got its id since the base state. */
  ghost predicate HandedOut(base: State, s: State, c: nat) {
    c < |s.calls| && s.calls[c].Id().Some? && (c < |base.calls| ==> base.calls[c].Id().None?)
  }

  ghost predicate HandedOutInv(base: State, s: State) {
    && base.nextId <= s.nextId && |base.calls| <= |s.calls|
    && (forall c: nat :: HandedOut(base, s, c) ==> base.nextId <= s.calls[c].Id().value < s.nextId)
    && (forall c: nat, d: nat :: c != d && HandedOut(base, s, c) && HandedOut(base, s, d) ==>
          s.calls[c].Id() != s.calls[d].Id())
  }

  /** An id was handed out before the step, or is the next one. */
  lemma HandedOutBefore(codec: Codec, base: State, s: State, t: State, step: Step, c: nat)
    requires Next(codec, s, t, step) && !step.Restart? && |base.calls| <= |s.calls| && HandedOut(base, t, c)
    ensures if step.Allocate? && c == step.c then t.calls[c].Id() == Some(s.nextId)
            else HandedOut(base, s, c) && t.calls[c].Id() == s.calls[c].Id()
  {
  }

  lemma StepKeepsHandedOut(codec: Codec, base: State, s: State, t: State, step: Step)
    requires HandedOutInv(base, s) && Next(codec, s, t, step) && !step.Restart?
    ensures HandedOutInv(base, t)
  {
    forall c: nat | HandedOut(base, t, c) ensures base.nextId <= t.calls[c].Id().value < t.nextId {
      HandedOutBefore(codec, base, s, t, step, c);
    }
    forall c: nat, d: nat | c != d && HandedOut(base, t, c) && HandedOut(base, t, d)
      ensures t.calls[c].Id() != t.calls[d].Id()
    {
      HandedOutBefore(codec, base, s, t, step, c);
      HandedOutBefore(codec, base, s, t, step, d);
    }
  }

  /**
   * Between crashes, from any state whatever, the ids handed out are distinct and
   * not below the first next id; so they are new to an index whose ids are.
   */
  lemma {:induction false} HandedOutIdsDiffer(codec: Codec, trace: seq<State>, i: nat)
    requires IsCrashFree(codec, trace) && i < |trace|
    ensures HandedOutInv(trace[0], trace[i])
    ensures forall c: nat, id :: HandedOut(trace[0], trace[i], c) && id in trace[0].index && id < trace[0].nextId ==>
              trace[i].calls[c].Id() != Some(id)
  {
    if i > 0 {
      HandedOutIdsDiffer(codec, trace, i - 1);
      assert Steps(codec, trace[i - 1], trace[i]);
      var step :| Next(codec, trace[i - 1], trace[i], step) && !step.Restart?;
      StepKeepsHandedOut(codec, trace[0], trace[i - 1], trace[i], step);
    }
  }

  /** In a crash-free run from a consistent state the next id is in no table, however many calls there are. */
  lemma {:induction false} CrashFreeIdsAreNew(codec: Codec, trace: seq<State>, i: nat)
    requires Faithful(codec) && IsCrashFree(codec, trace) && Consistent(codec, trace[0]) && i < |trace|
    ensures var s, loaded := trace[i], LoadedIndex(codec, trace[i].saved);
            && loaded.Some? && s.nextId !in loaded.value && s.nextId !in s.nodes && s.nextId !in s.index
  {
    RunKeepsSince(codec, trace, i);
    var base, s := trace[0], trace[i];
    var loaded := LoadedIndex(codec, s.saved).value;
    if s.nextId in s.index {
      MadeIdsAreOld(codec, base, s, s.nextId, s.index[s.nextId]);
    }
    if s.nextId in s.nodes {
      assert StoredBy(base, s, s.nextId, s.nodes[s.nextId]);
      MadeIdsAreOld(codec, base, s, s.nextId, s.nodes[s.nextId]);
    }
  }

  lemma MadeIdsAreOld(codec: Codec, base: State, s: State, id: nat, c: nat)
    requires Consistent(codec, base) && SinceInv(codec, base, s) && MadeBy(base, s, id, c)
    ensures id < s.nextId
  {
    assert |base.calls| <= c < |s.calls| ==> NewCallInv(base, s, LoadedIndex(codec, s.saved).value, c);
  }

  /**
   * Once all calls since a consistent state have returned successfully, the state
   * is consistent again, and it holds the earlier entries and one for each call.
   */
  lemma {:induction false} SuccessMeansAgreement(codec: Codec, trace: seq<State>, i: nat)
    requires Faithful(codec) && IsCrashFree(codec, trace) && Consistent(codec, trace[0]) && i < |trace|
    requires forall c :: |trace[0].calls| <= c < |trace[i].calls| ==> trace[i].calls[c].Returned?
    ensures Consistent(codec, trace[i])
    ensures forall id: nat, c: nat :: HasEntry(trace[i].index, id, c) <==>
              || HasEntry(trace[0].index, id, c)
              || (|trace[0].calls| <= c < |trace[i].calls| && trace[i].calls[c] == Returned(id))
  {
    RunKeepsSince(codec, trace, i);
    var base, s := trace[0], trace[i];
    var loaded := LoadedIndex(codec, s.saved).value;
    forall id: nat, c: nat ensures HasEntry(s.index, id, c) <==>
        HasEntry(base.index, id, c) || (|base.calls| <= c < |s.calls| && s.calls[c] == Returned(id))
    {
      if HasEntry(s.index, id, c) {
        assert MadeBy(base, s, id, c);
      }
      if |base.calls| <= c < |s.calls| && s.calls[c] == Returned(id) {
        assert NewCallInv(base, s, loaded, c);
      }
    }
    forall id | id in s.index
      ensures HasEntry(s.nodes, id, s.index[id]) && HasEntry(loaded, id, s.index[id]) && id < s.nextId
    {
      var c := s.index[id];
      assert MadeBy(base, s, id, c);
      assert |base.calls| <= c < |s.calls| ==> NewCallInv(base, s, loaded, c);
    }
    forall id | id in s.nodes ensures HasEntry(s.index, id, s.nodes[id]) {
      var c := s.nodes[id];
      assert StoredBy(base, s, id, c);
      assert |base.calls| <= c < |s.calls| ==> NewCallInv(base, s, loaded, c);
    }
    assert s.index == s.nodes && loaded == s.index;
  }

  // ---- One call at a time, with failures and crashes: saved ids stay within the node ids ----

  ghost predicate OneAtATime(s: State) {
    forall c, d :: 0 <= c < d < |s.calls| ==> !(s.calls[c].Live() && s.calls[d].Live())
  }

  ghost predicate WithinNodes(m: Entries, nodes: Entries) {
    forall id :: id in m ==> IsWithin(id, nodes)
  }

  ghost predicate IsWithin(id: nat, nodes: Entries) {
    exists n :: n in nodes && id <= n
  }

  ghost predicate LiveIsLatest(s: State, c: nat)
    requires c < |s.calls|
  {
    && (s.calls[c].Live() && s.calls[c].Id().Some? ==> s.calls[c].Id().value + 1 == s.nextId)
    && (s.calls[c].Stored? ==> s.calls[c].id in s.nodes)
  }

  ghost predicate SequentialInv(codec: Codec, s: State) {
    && LoadedIndex(codec, s.saved).Some? && WithinNodes(LoadedIndex(codec, s.saved).value, s.nodes)
    && (forall id :: id in s.index ==> id < s.nextId)
    && (forall id :: id in s.nodes ==> id < s.nextId)
    && (forall c :: 0 <= c < |s.calls| ==> LiveIsLatest(s, c))
  }

  lemma StepKeepsWithin(codec: Codec, s: State, t: State, step: Step)
    requires Faithful(codec) && Fits(codec, s) && SequentialInv(codec, s) && Next(codec, s, t, step)
    ensures LoadedIndex(codec, t.saved).Some? && WithinNodes(LoadedIndex(codec, t.saved).value, t.nodes)
  {
    var loaded := LoadedIndex(codec, s.saved).value;
    if step.Save? {
      SavedIsLoaded(codec, s.index);
      assert LiveIsLatest(s, step.c);
      forall id | id in s.index ensures IsWithin(id, s.nodes) {
        assert s.calls[step.c].id in s.nodes && id <= s.calls[step.c].id;
      }
    } else {
      forall id | id in loaded ensures IsWithin(id, t.nodes) {
        assert IsWithin(id, s.nodes);
        var n :| n in s.nodes && id <= n;
        assert n in t.nodes;
      }
    }
  }

  lemma StepKeepsLatest(codec: Codec, s: State, t: State, step: Step, c: nat)
    requires OneAtATime(s) && OneAtATime(t) && SequentialInv(codec, s) && Next(codec, s, t, step) && c < |t.calls|
    ensures LiveIsLatest(t, c)
  {
    assert c < |s.calls| ==> LiveIsLatest(s, c);
  }

  lemma StepKeepsSequential(codec: Codec, s: State, t: State, step: Step)
    requires Faithful(codec) && Fits(codec, s) && OneAtATime(s) && OneAtATime(t)
    requires SequentialInv(codec, s) && Next(codec, s, t, step)
    ensures SequentialInv(codec, t)
  {
    StepKeepsWithin(codec, s, t, step);
    forall c | 0 <= c < |t.calls| ensures LiveIsLatest(t, c) {
      StepKeepsLatest(codec, s, t, step, c);
    }
    assert !step.Begin? && !step.Restart? ==> LiveIsLatest(s, step.c);
    if step.Restart? {
      forall id | id in t.index ensures id < t.nextId {
        assert IsWithin(id, s.nodes);
      }
    }
  }

  lemma {:induction false} RunKeepsSequential(codec: Codec, trace: seq<State>, i: nat)
    requires Faithful(codec) && IsRun(codec, trace) && trace[0] == Empty && i < |trace|
    requires forall j :: 0 <= j < |trace| ==> OneAtATime(trace[j])
    ensures SequentialInv(codec, trace[i])
  {
    if i > 0 {
      RunKeepsSequential(codec, trace, i - 1);
      assert Steps(codec, trace[i - 1], trace[i]);
      var step :| Next(codec, trace[i - 1], trace[i], step);
      StepKeepsSequential(codec, trace[i - 1], trace[i], step);
    }
  }

  /**
   * With one call at a time, whatever fails or crashes, every id of the saved
   * index is at most the largest node id, and an id about to be handed out is in
   * neither of them nor in the index in memory.
   */
  lemma {:induction false} SavedIdsAreNotReused(codec: Codec, trace: seq<State>, i: nat)
    requires Faithful(codec) && IsRun(codec, trace) && trace[0] == Empty && i < |trace|
    requires forall j :: 0 <= j < |trace| ==> OneAtATime(trace[j])
    ensures var s, loaded := trace[i], LoadedIndex(codec, trace[i].saved);
            && loaded.Some? && WithinNodes(loaded.value, s.nodes)
            && s.nextId !in loaded.value && s.nextId !in s.nodes && s.nextId !in s.index
  {
    RunKeepsSequential(codec, trace, i);
    var s := trace[i];
    assert !IsWithin(s.nextId, s.nodes);
  }

  // ---- Concurrent calls and a crash: a saved id is handed out again ----

  /** Two calls insert, the first stores and saves, the process dies: its successor reuses id 2. */
  function ReuseState(codec: Codec, i: nat): State {
    var one, two: Entries := map[1 := 0], map[1 := 0, 2 := 1];
    var saved := Some(ToFrame(codec, two));
    if i == 0 then Empty
    else if i == 1 then State(1, map[], map[], None, [Starting])
    else if i == 2 then State(1, map[], map[], None, [Starting, Starting])
    else if i == 3 then State(2, map[], map[], None, [Allocated(1), Starting])
    else if i == 4 then State(2, one, map[], None, [Inserted(1), Starting])
    else if i == 5 then State(3, one, map[], None, [Inserted(1), Allocated(2)])
    else if i == 6 then State(3, two, map[], None, [Inserted(1), Inserted(2)])
    else if i == 7 then State(3, two, one, None, [Stored(1), Inserted(2)])
    else if i == 8 then State(3, two, one, saved, [Returned(1), Inserted(2)])
    else if i == 9 then State(2, two, one, saved, [Returned(1), Lost])
    else if i == 10 then State(2, two, one, saved, [Returned(1), Lost, Starting])
    else State(3, two, one, saved, [Returned(1), Lost, Allocated(2)])
  }

  ghost predicate ReuseFits(codec: Codec) {
    && |codec.writeVectors(map[])| < WORD
    && |codec.writeVectors(map[1 := 0])| < WORD
    && |codec.writeVectors(map[1 := 0, 2 := 1])| < WORD
  }

  lemma ReuseBegins(codec: Codec, i: nat)
    requires Faithful(codec) && ReuseFits(codec) && i < 6
    ensures Steps(codec, ReuseState(codec, i), ReuseState(codec, i + 1))
  {
    var step := [Begin, Begin, Allocate(0), Insert(0), Allocate(1), Insert(1)][i];
    assert Next(codec, ReuseState(codec, i), ReuseState(codec, i + 1), step);
  }

  /** A crash while the first call has returned and the second has not stored its node. */
  lemma CrashStep(codec: Codec, saved: Option<Bytes>, index: Entries, nodes: Entries)
    requires LoadedIndex(codec, saved) == Some(index) && |codec.writeVectors(index)| < WORD && IsNextId(nodes.Keys, 2)
    ensures Steps(codec, State(3, index, nodes, saved, [Returned(1), Inserted(2)]),
                         State(2, index, nodes, saved, [Returned(1), Lost]))
  {
    var s := State(3, index, nodes, saved, [Returned(1), Inserted(2)]);
    assert Abandoned(s.calls) == [Returned(1), Lost];
    assert Next(codec, s, State(2, index, nodes, saved, [Returned(1), Lost]), Restart);
  }

  lemma NextAfterOne(nodes: Entries)
    requires nodes.Keys == {1}
    ensures IsNextId(nodes.Keys, 2)
  {
  }

  lemma ReuseCrashes(codec: Codec, i: nat, index: Entries)
    requires Faithful(codec) && ReuseFits(codec) && i == 8 && index == map[1 := 0, 2 := 1]
    ensures Steps(codec, ReuseState(codec, i), ReuseState(codec, i + 1))
  {
    SavedIsLoaded(codec, index);
    NextAfterOne(map[1 := 0]);
    CrashStep(codec, Some(ToFrame(codec, index)), index, map[1 := 0]);
  }

  lemma ReuseEnds(codec: Codec, i: nat)
    requires Faithful(codec) && ReuseFits(codec) && i in {6, 7, 9, 10}
    ensures Steps(codec, ReuseState(codec, i), ReuseState(codec, i + 1))
  {
    var step := if i == 6 then PutNode(0) else if i == 7 then Save(0) else if i == 9 then Begin else Allocate(2);
    assert Next(codec, ReuseState(codec, i), ReuseState(codec, i + 1), step);
  }

  lemma {:induction false} ConcurrentCrashReusesAnId(codec: Codec) returns (trace: seq<State>)
    requires Faithful(codec) && ReuseFits(codec)
    ensures IsRun(codec, trace) && trace[0] == Empty && AtMostLive(trace, 2)
    ensures var last := trace[|trace| - 1];
            var loaded := LoadedIndex(codec, last.saved);
            && last.calls == [Returned(1), Lost, Allocated(2)]
            && loaded.Some? && 2 in loaded.value && !WithinNodes(loaded.value, last.nodes)
    ensures |trace| == 12 && trace[10].nextId == 2 && LoadedIndex(codec, trace[10].saved) == Some(map[1 := 0, 2 := 1])
    ensures trace[11] == ReuseState(codec, 11)
  {
    trace := seq(12, i requires 0 <= i < 12 => ReuseState(codec, i));
    forall i, j | 0 <= i && j == i + 1 && j < 12 ensures Steps(codec, trace[i], trace[j]) {
      ReuseSteps(codec, i);
    }
    forall i | 0 <= i < 12 ensures CountLive(trace[i].calls) <= 2 {
      ReuseIsNarrow(codec, i);
    }
    SavedIsLoaded(codec, map[1 := 0, 2 := 1]);
    assert !IsWithin(2, map[1 := 0]);
  }

  lemma ReuseSteps(codec: Codec, i: nat)
    requires Faithful(codec) && ReuseFits(codec) && i < 11
    ensures Steps(codec, ReuseState(codec, i), ReuseState(codec, i + 1))
  {
    if i < 6 {
      ReuseBegins(codec, i);
    } else if i == 8 {
      ReuseCrashes(codec, i, map[1 := 0, 2 := 1]);
    } else {
      ReuseEnds(codec, i);
    }
  }

  lemma ReuseIsNarrow(codec: Codec, i: nat)
    ensures CountLive(ReuseState(codec, i).calls) <= 2
  {
    var calls := ReuseState(codec, i).calls;
    CountIsBounded(calls);
    if |calls| == 3 {
      CountIsBounded(calls[1..]);
      assert !calls[0].Live();
    }
  }

  // ---- Exactly when saved ids are safe ----

  /** The number of calls in flight. */
  function CountLive(calls: seq<Call>): nat {
    if calls == [] then 0 else (if calls[0].Live() then 1 else 0) + CountLive(calls[1..])
  }

  ghost predicate AtMostLive(trace: seq<State>, w: nat) {
    forall i :: 0 <= i < |trace| ==> CountLive(trace[i].calls) <= w
  }

  lemma {:induction false} CountIsBounded(calls: seq<Call>)
    ensures CountLive(calls) <= |calls|
    ensures CountLive(calls) == 0 ==> forall c :: 0 <= c < |calls| ==> !calls[c].Live()
  {
    if calls != [] {
      CountIsBounded(calls[1..]);
    }
  }

  lemma {:induction false} OneLiveAtMost(calls: seq<Call>)
    requires CountLive(calls) <= 1
    ensures forall c, d :: 0 <= c < d < |calls| ==> !(calls[c].Live() && calls[d].Live())
  {
    if calls != [] {
      OneLiveAtMost(calls[1..]);
      CountIsBounded(calls[1..]);
    }
  }

  lemma NarrowIsSequential(trace: seq<State>)
    requires AtMostLive(trace, 1)
    ensures forall i :: 0 <= i < |trace| ==> OneAtATime(trace[i])
  {
    forall i | 0 <= i < |trace| ensures OneAtATime(trace[i]) {
      OneLiveAtMost(trace[i].calls);
    }
  }

  /** The runs of a process history with at most `w` calls in flight, with or without crashes. */
  ghost predicate IsHistory(codec: Codec, trace: seq<State>, w: nat, mayCrash: bool) {
    && IsRun(codec, trace) && trace[0] == Empty && AtMostLive(trace, w)
    && (mayCrash || IsCrashFree(codec, trace))
  }

  /** No id of the saved index is about to be handed out. */
  ghost predicate SavedIdsAreSafe(codec: Codec, s: State) {
    LoadedIndex(codec, s.saved).Some? && s.nextId !in LoadedIndex(codec, s.saved).value
  }

  ghost predicate AlwaysSafe(codec: Codec, trace: seq<State>) {
    forall i :: 0 <= i < |trace| ==> SavedIdsAreSafe(codec, trace[i])
  }

  ghost predicate AlwaysWithinNodes(codec: Codec, trace: seq<State>) {
    forall i :: 0 <= i < |trace| ==>
      var loaded := LoadedIndex(codec, trace[i].saved); loaded.Some? && WithinNodes(loaded.value, trace[i].nodes)
  }

  lemma SequentialIsSafe(codec: Codec, trace: seq<State>, w: nat)
    requires Faithful(codec) && w <= 1 && IsHistory(codec, trace, w, true)
    ensures AlwaysSafe(codec, trace) && AlwaysWithinNodes(codec, trace)
  {
    NarrowIsSequential(trace);
    forall i | 0 <= i < |trace| ensures SavedIdsAreSafe(codec, trace[i])
      && WithinNodes(LoadedIndex(codec, trace[i].saved).value, trace[i].nodes)
    {
      SavedIdsAreNotReused(codec, trace, i);
    }
  }

  lemma CrashFreeIsSafe(codec: Codec, trace: seq<State>, w: nat)
    requires Faithful(codec) && IsHistory(codec, trace, w, false)
    ensures AlwaysSafe(codec, trace)
  {
    forall i | 0 <= i < |trace| ensures SavedIdsAreSafe(codec, trace[i]) {
      CrashFreeIdsAreNew(codec, trace, i);
    }
  }

  /**
   * A saved id is never handed out again exactly when calls come one at a time or
   * the process never crashes.
   */
  lemma SavedIdsAreSafeIff(codec: Codec, w: nat, mayCrash: bool)
    requires Faithful(codec) && ReuseFits(codec)
    ensures w <= 1 || !mayCrash <==> forall trace :: IsHistory(codec, trace, w, mayCrash) ==> AlwaysSafe(codec, trace)
  {
    if w <= 1 || !mayCrash {
      forall trace | IsHistory(codec, trace, w, mayCrash) ensures AlwaysSafe(codec, trace) {
        if mayCrash {
          SequentialIsSafe(codec, trace, w);
        } else {
          CrashFreeIsSafe(codec, trace, w);
        }
      }
    } else {
      var trace := ConcurrentCrashReusesAnId(codec);
      assert IsHistory(codec, trace, w, mayCrash);
      assert !SavedIdsAreSafe(codec, trace[10]);
    }
  }

  /** The saved ids stay within the node ids exactly when calls come one at a time. */
  lemma WithinNodesIff(codec: Codec, w: nat)
    requires Faithful(codec) && ReuseFits(codec)
    ensures w <= 1 <==> forall trace :: IsHistory(codec, trace, w, true) ==> AlwaysWithinNodes(codec, trace)
  {
    if w <= 1 {
      forall trace | IsHistory(codec, trace, w, true) ensures AlwaysWithinNodes(codec, trace) {
        SequentialIsSafe(codec, trace, w);
      }
    } else {
      var trace := ConcurrentCrashReusesAnId(codec);
      assert IsHistory(codec, trace, w, true);
      assert !AlwaysWithinNodes(codec, trace) by { assert trace[11] == trace[|trace| - 1]; }
    }
  }

  // ---- The methods that take the steps ----

  ghost predicate IsSequentialRun(codec: Codec, trace: seq<State>, s: State, t: State) {
    && IsRun(codec, trace) && trace[0] == s && trace[|trace| - 1] == t
    && forall j :: 0 <= j < |trace| ==> OneAtATime(trace[j])
  }

  lemma AppendStep(codec: Codec, trace: seq<State>, s: State, t: State, u: State, step: Step)
    requires IsSequentialRun(codec, trace, s, t) && OneAtATime(u) && Fits(codec, t) && Next(codec, t, u, step)
    ensures IsSequentialRun(codec, trace + [u], s, u)
  {
    assert Steps(codec, t, u);
  }

  /** Nothing is in flight. */
  ghost predicate Quiet(s: State) {
    forall c :: 0 <= c < |s.calls| ==> !s.calls[c].Live()
  }

  /** How far a call gets: the step that fails, or none. */
  datatype Outcome = EmbedFails | InsertFails | PutFails | SaveFails | Succeeds

  /** The state with a last call, before any of its steps and after them. */
  function With(s: State, call: Call): State {
    s.(calls := s.calls + [call])
  }

  /** The state one call on its own leaves behind. */
  function AfterCall(codec: Codec, s: State, outcome: Outcome): State {
    var id, c := s.nextId, |s.calls|;
    var numbered := s.(nextId := id + 1);
    var inserted := numbered.(index := s.index[id := c]);
    var stored := inserted.(nodes := s.nodes[id := c]);
    match outcome
    case EmbedFails => With(s, Failed(None))
    case InsertFails => With(numbered, Failed(Some(id)))
    case PutFails => With(inserted, Failed(Some(id)))
    case SaveFails => With(stored, Failed(Some(id)))
    case Succeeds => With(stored.(saved := Some(ToFrame(codec, inserted.index))), Returned(id))
  }

  lemma LastStep(codec: Codec, trace: seq<State>, s: State, t: State, u: State, before: Call, after: Call, step: Step)
    requires Quiet(t) && t.calls == u.calls && Fits(codec, t)
    requires IsSequentialRun(codec, trace, s, With(t, before)) && Next(codec, With(t, before), With(u, after), step)
    ensures IsSequentialRun(codec, trace + [With(u, after)], s, With(u, after))
  {
    AppendStep(codec, trace, s, With(t, before), With(u, after), step);
  }

  /** A call on its own takes the steps of the protocol and no others. */
  lemma {:induction false} AfterCallIsRun(codec: Codec, s: State, outcome: Outcome) returns (trace: seq<State>)
    requires Quiet(s) && Fits(codec, s) && Fits(codec, s.(index := s.index[s.nextId := |s.calls|]))
    ensures IsSequentialRun(codec, trace, s, AfterCall(codec, s, outcome))
  {
    var id, c := s.nextId, |s.calls|;
    var numbered := s.(nextId := id + 1);
    var inserted := numbered.(index := s.index[id := c]);
    var stored := inserted.(nodes := s.nodes[id := c]);
    AppendStep(codec, [s], s, s, With(s, Starting), Begin);
    trace := [s] + [With(s, Starting)];
    if outcome.EmbedFails? {
      LastStep(codec, trace, s, s, s, Starting, Failed(None), Fail(c));
      trace := trace + [With(s, Failed(None))];
      return;
    }
    LastStep(codec, trace, s, s, numbered, Starting, Allocated(id), Allocate(c));
    trace := trace + [With(numbered, Allocated(id))];
    if outcome.InsertFails? {
      LastStep(codec, trace, s, numbered, numbered, Allocated(id), Failed(Some(id)), Fail(c));
      trace := trace + [With(numbered, Failed(Some(id)))];
      return;
    }
    LastStep(codec, trace, s, numbered, inserted, Allocated(id), Inserted(id), Insert(c));
    trace := trace + [With(inserted, Inserted(id))];
    trace := AfterInsertIsRun(codec, s, inserted, stored, trace, outcome);
  }

  lemma AfterInsertIsRun(codec: Codec, s: State, inserted: State, stored: State, start: seq<State>, outcome: Outcome)
    returns (trace: seq<State>)
    requires Quiet(s) && Fits(codec, inserted) && (outcome.PutFails? || outcome.SaveFails? || outcome.Succeeds?)
    requires inserted == s.(nextId := s.nextId + 1, index := s.index[s.nextId := |s.calls|])
    requires stored == inserted.(nodes := s.nodes[s.nextId := |s.calls|])
    requires IsSequentialRun(codec, start, s, With(inserted, Inserted(s.nextId)))
    ensures IsSequentialRun(codec, trace, s, AfterCall(codec, s, outcome))
  {
    var id, c := s.nextId, |s.calls|;
    if outcome.PutFails? {
      LastStep(codec, start, s, inserted, inserted, Inserted(id), Failed(Some(id)), Fail(c));
      trace := start + [With(inserted, Failed(Some(id)))];
      return;
    }
    LastStep(codec, start, s, inserted, stored, Inserted(id), Stored(id), PutNode(c));
    trace := start + [With(stored, Stored(id))];
    if outcome.SaveFails? {
      LastStep(codec, trace, s, stored, stored, Stored(id), Failed(Some(id)), Fail(c));
      trace := trace + [With(stored, Failed(Some(id)))];
      return;
    }
    var saved := stored.(saved := Some(ToFrame(codec, stored.index)));
    LastStep(codec, trace, s, stored, saved, Stored(id), Returned(id), Save(c));
    trace := trace + [With(saved, Returned(id))];
  }

  /** An indexer and its database; the calls are recorded for the specification only. */
  class Indexer {
    var nextId: nat
    var index: Entries
    var nodes: Entries
    var saved: Option<Bytes>
    ghost var calls: seq<Call>

    ghost function Current(): State
      reads this
    {
      State(nextId, index, nodes, saved, calls)
    }

    constructor ()
      ensures Current() == Empty
    {
      nextId, index, nodes, saved, calls := 1, map[], map[], None, [];
    }

    /** The call numbered `c`; which of its fallible steps fails, if any, is given. */
    method IndexText(codec: Codec, c: nat, outcome: Outcome) returns (r: Option<nat>)
      requires c == |calls|
      modifies this
      ensures Current() == AfterCall(codec, old(Current()), outcome)
      ensures r == if outcome.Succeeds? then Some(old(nextId)) else None
    {
      if outcome.EmbedFails? {
        calls := calls + [Failed(None)];
        return None;
      }
      var id := nextId;
      nextId := nextId + 1;
      calls := calls + [Failed(Some(id))];
      if outcome.InsertFails? {
        return None;
      }
      index := index[id := c];
      if outcome.PutFails? {
        return None;
      }
      nodes := nodes[id := c];
      if outcome.SaveFails? {
        return None;
      }
      saved := Some(ToFrame(codec, index));
      calls := calls[c := Returned(id)];
      r := Some(id);
    }

    /** A new process on the same database; `ids` lists the node table. Fails if the saved index does not load. */
    method Reopen(codec: Codec, ids: seq<nat>) returns (ok: bool)
      requires forall id :: id in nodes.Keys <==> id in ids
      modifies this
      ensures ok <==> LoadedIndex(codec, old(saved)).Some?
      ensures if ok then Next(codec, old(Current()), Current(), Restart) else Current() == old(Current())
    {
      var loaded: Entries := map[];
      if saved.Some? {
        var restored := FromBytes(saved.value, codec.readConfig, codec.readVectors);
        if restored.Failure? {
          return false;
        }
        loaded := restored.value.1;
      }
      nextId := NextFreeId(ids, nodes.Keys);
      index := loaded;
      calls := Abandoned(calls);
      ok := true;
    }
  }
}
