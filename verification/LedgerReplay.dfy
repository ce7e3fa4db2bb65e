/**
 * What the replay planner makes of the file of a run: the logged requests in call
 * order, and the run id, the version and the number of events.
 */
module LedgerReplay {
  import opened Wrappers
  import opened Json
  import opened Canonical
  import opened Ledger
  import opened LedgerChain

  // ---- What a sealed line says ----

  /** A property after storage. */
  function Stored(v: Value): Value {
    if v == Undefined then Undefined else Normal(v, false)
  }

  lemma {:induction false} LookupAbsent(members: seq<Entry<Value>>, key: Text)
    requires forall i :: 0 <= i < |members| ==> members[i].key != key
    ensures Lookup(NormalMembers(members, false), key) == Undefined
  {
    if members != [] {
      LookupAbsent(members[1..], key);
    }
  }

  lemma {:induction false} LookupStored(members: seq<Entry<Value>>, more: seq<Entry<Value>>, key: Text)
    requires DistinctKeys(members) && Lookup(more, key) == Undefined
    ensures Lookup(NormalMembers(members, false) + more, key) == Stored(Lookup(members, key))
  {
    if members == [] {
      assert NormalMembers(members, false) + more == more;
    } else {
      var tail := members[1..];
      LookupStored(tail, more, key);
      if members[0].value == Undefined {
        if members[0].key == key {
          LookupNowhere(tail, key);
        }
      } else {
        assert (NormalMembers(members, false) + more)[1..] == NormalMembers(tail, false) + more;
      }
    }
  }

  lemma {:induction false} LookupNowhere(members: seq<Entry<Value>>, key: Text)
    requires forall i :: 0 <= i < |members| ==> members[i].key != key
    ensures Lookup(members, key) == Undefined
  {
    if members != [] {
      LookupNowhere(members[1..], key);
    }
  }

  /** An event whose payload is an object, as every event of the writer. */
  ghost predicate HasPayload(e: Value) {
    IsEvent(e) && Field(e, PAYLOAD).Obj? && Field(e, TYPE) != Undefined
  }

  function EventRequests(e: Value): seq<Request> {
    if IsRequest(e) then [RequestOf(Normal(Field(e, PAYLOAD), false))] else []
  }

  function RequestsLogged(events: seq<Value>): seq<Request> {
    if events == [] then []
    else RequestsLogged(events[..|events| - 1]) + EventRequests(events[|events| - 1])
  }

  lemma SealKeysAreOthers(a: Value, b: Value)
    ensures Lookup([Entry(PREV_HASH, a), Entry(HASH, b)], TYPE) == Undefined
    ensures Lookup([Entry(PREV_HASH, a), Entry(HASH, b)], PAYLOAD) == Undefined
  {
    KeysDiffer();
    var seal := [Entry(PREV_HASH, a), Entry(HASH, b)];
    LookupNowhere(seal, TYPE);
    LookupNowhere(seal, PAYLOAD);
  }

  /** What was read has the type and the payload of the event. */
  ghost predicate IsReadOf(read: Option<Value>, event: Value) {
    && read.Some? && Field(read.value, TYPE) == Stored(Field(event, TYPE))
    && Field(read.value, PAYLOAD) == Stored(Field(event, PAYLOAD))
  }

  /** What the planner seen from the line of a sealed event. */
  lemma SealedLineEvent(event: Value, a: Text, b: Text)
    requires HasPayload(event)
    ensures IsReadOf(LineEvent(Stringify(Seal(event, a, b))), event)
  {
    var seal := [Entry(PREV_HASH, Str(a)), Entry(HASH, Str(b))];
    StoredSeal(event, a, b);
    SealKeysAreOthers(Str(a), Str(b));
    LookupStored(event.members, seal, TYPE);
    LookupStored(event.members, seal, PAYLOAD);
  }

  ghost predicate HavePayloads(events: seq<Value>) {
    forall i :: 0 <= i < |events| ==> HasPayload(events[i])
  }

  ghost predicate IsSealedLine(line: Text, event: Value)
    requires event.Obj?
  {
    exists a, b :: line == Stringify(Seal(event, a, b))
  }

  lemma {:induction false} EventsOfSealedLines(events: seq<Value>, lines: seq<Text>)
    requires HavePayloads(events) && |lines| == |events|
    requires forall i :: 0 <= i < |events| ==> IsSealedLine(lines[i], events[i])
    ensures Plannable(LineEvents(lines)) && RequestsOf(LineEvents(lines)) == RequestsLogged(events)
  {
    if events != [] {
      var n := |events| - 1;
      var before, last := LineEvents(lines[..n]), LineEvent(lines[n]);
      EventsOfSealedLines(events[..n], lines[..n]);
      assert HasPayload(events[n]) && IsSealedLine(lines[n], events[n]);
      SealedLineIsRead(events[n], lines[n]);
      ReadRequests(last, events[n]);
      OneMoreEvent(lines, n, before, last);
      RequestsLoggedLast(events, n);
    }
  }

  lemma OneMoreEvent(lines: seq<Text>, n: nat, before: seq<Option<Value>>, last: Option<Value>)
    requires |lines| == n + 1 && before == LineEvents(lines[..n]) && last == LineEvent(lines[n])
    requires Plannable(before) && last.Some?
    ensures Plannable(LineEvents(lines)) && RequestsOf(LineEvents(lines)) == RequestsOf(before) + LineRequests(last)
  {
    assert LineEvents(lines) == before + [last];
    assert (before + [last])[..n] == before;
  }

  lemma RequestsLoggedLast(events: seq<Value>, n: nat)
    requires |events| == n + 1
    ensures RequestsLogged(events) == RequestsLogged(events[..n]) + EventRequests(events[n])
  {
  }

  lemma SealedLineIsRead(event: Value, line: Text)
    requires HasPayload(event) && IsSealedLine(line, event)
    ensures IsReadOf(LineEvent(line), event)
  {
    var a, b :| line == Stringify(Seal(event, a, b));
    SealedLineEvent(event, a, b);
  }

  lemma ReadRequests(read: Option<Value>, event: Value)
    requires HasPayload(event) && IsReadOf(read, event)
    ensures LineRequests(read) == EventRequests(event)
  {
  }

  lemma PayloadOfCall(c: Call)
    requires ValidCall(c)
    ensures HasPayload(EventOf(c)) && Field(EventOf(c), TYPE) == Str(c.kind) && Field(EventOf(c), PAYLOAD) == c.payload
  {
    CallIsEvent(c);
    assert |PAYLOAD| == 7 && |ID| == 2 && |TIMESTAMP| == 9 && |TYPE| == 4 && |SEVERITY| == 8 && |TASK_ID| == 6;
    LookupAt(EventOf(c).members, 2);
    LookupAt(EventOf(c).members, 5);
  }

  lemma PayloadOfGenesis(runId: Text, id: Text, time: Text)
    ensures HasPayload(GenesisEvent(runId, id, time)) && Field(GenesisEvent(runId, id, time), TYPE) == Str(GENESIS)
  {
    GenesisIsEvent(runId, id, time);
    assert |PAYLOAD| == 7 && |ID| == 2 && |TIMESTAMP| == 9 && |TYPE| == 4 && |SEVERITY| == 8;
    LookupAt(GenesisEvent(runId, id, time).members, 2);
    LookupAt(GenesisEvent(runId, id, time).members, 4);
  }

  lemma {:induction false} LookupAt(members: seq<Entry<Value>>, i: nat)
    requires i < |members| && forall j :: 0 <= j < i ==> members[j].key != members[i].key
    ensures Lookup(members, members[i].key) == members[i].value
  {
    if i > 0 {
      LookupAt(members[1..], i - 1);
    }
  }

  // ---- What a line and a request say of a call ----

  /** The properties of a parsed line. */
  ghost predicate Says(v: Value, call: Call, prev: Text, hash: Text) {
    && Field(v, Ascii("id")) == Str(call.id) && Field(v, Ascii("timestamp")) == Str(call.timestamp)
    && Field(v, Ascii("type")) == Str(call.kind) && Field(v, Ascii("severity")) == Str(call.severity)
    && Field(v, Ascii("taskId")) == Stored(call.taskId) && Field(v, Ascii("payload")) == Stored(call.payload)
    && Field(v, Ascii("metadata")) == Stored(call.metadata)
    && Field(v, Ascii("prev_hash")) == Str(prev) && Field(v, Ascii("hash")) == Str(hash)
  }

  lemma EventKeys(call: Call)
    requires ValidCall(call)
    ensures var e := EventOf(call);
            && Field(e, ID) == Str(call.id) && Field(e, TIMESTAMP) == Str(call.timestamp)
            && Field(e, TYPE) == Str(call.kind) && Field(e, SEVERITY) == Str(call.severity)
            && Field(e, TASK_ID) == call.taskId && Field(e, PAYLOAD) == call.payload
            && Field(e, METADATA) == call.metadata
  {
    var members := EventOf(call).members;
    CallIsEvent(call);
    LookupAt(members, 0);
    LookupAt(members, 1);
    LookupAt(members, 2);
    LookupAt(members, 3);
    LookupAt(members, 4);
    LookupAt(members, 5);
    LookupAt(members, 6);
  }

  lemma PastSeal(members: seq<Entry<Value>>, a: Value, b: Value, key: Text)
    requires DistinctKeys(members) && key != PREV_HASH && key != HASH
    ensures Lookup(NormalMembers(members, false) + [Entry(PREV_HASH, a), Entry(HASH, b)], key)
         == Stored(Lookup(members, key))
  {
    var seal := [Entry(PREV_HASH, a), Entry(HASH, b)];
    LookupNowhere(seal, key);
    LookupStored(members, seal, key);
  }

  /** What is read from the line that is written for a call. */
  lemma LoggedLineSays(h: Hash, prev: Text, call: Call)
    requires ValidCall(call)
    ensures var p := Parse(Stringify(Seal(EventOf(call), prev, HashEvent(h, prev, EventOf(call)))));
            p.ParseOk? && Says(p.value, call, prev, h(prev + Canonicalize(EventOf(call))))
  {
    var event := EventOf(call);
    var hash := HashEvent(h, prev, event);
    CallIsEvent(call);
    EventKeys(call);
    StoredSeal(event, prev, hash);
    SealFields(NormalMembers(event.members, false), Str(prev), Str(hash));
    KeysAreOthers();
    PastSeal(event.members, Str(prev), Str(hash), ID);
    PastSeal(event.members, Str(prev), Str(hash), TIMESTAMP);
    PastSeal(event.members, Str(prev), Str(hash), TYPE);
    PastSeal(event.members, Str(prev), Str(hash), SEVERITY);
    PastSeal(event.members, Str(prev), Str(hash), TASK_ID);
    PastSeal(event.members, Str(prev), Str(hash), PAYLOAD);
    PastSeal(event.members, Str(prev), Str(hash), METADATA);
  }

  lemma KeysAreOthers()
    ensures PREV_HASH !in [ID, TIMESTAMP, TYPE, SEVERITY, TASK_ID, PAYLOAD, METADATA]
    ensures HASH !in [ID, TIMESTAMP, TYPE, SEVERITY, TASK_ID, PAYLOAD, METADATA]
  {
    KeysDiffer();
    assert |ID| == 2 && |TIMESTAMP| == 9 && |TYPE| == 4 && |SEVERITY| == 8 && |TASK_ID| == 6;
    assert |PAYLOAD| == 7 && |METADATA| == 8 && |PREV_HASH| == 9 && |HASH| == 4;
  }

  /** What is read from the line of the genesis event. */
  ghost predicate SaysGenesis(v: Value, runId: Text, id: Text, time: Text) {
    && Field(v, Ascii("id")) == Str(id) && Field(v, Ascii("timestamp")) == Str(time)
    && Field(v, Ascii("type")) == Str(Ascii("genesis")) && Field(v, Ascii("severity")) == Str(Ascii("info"))
    && Field(v, Ascii("payload")) == Obj([Entry(Ascii("runId"), Str(runId)), Entry(Ascii("ledgerVersion"), Num(1))])
  }

  lemma GenesisKeys(runId: Text, id: Text, time: Text)
    ensures SaysGenesis(GenesisEvent(runId, id, time), runId, id, time)
  {
    var members := GenesisEvent(runId, id, time).members;
    GenesisIsEvent(runId, id, time);
    LookupAt(members, 0);
    LookupAt(members, 1);
    LookupAt(members, 2);
    LookupAt(members, 3);
    LookupAt(members, 4);
  }

  lemma GenesisLineSays(h: Hash, prev: Text, runId: Text, id: Text, time: Text)
    ensures var event := GenesisEvent(runId, id, time);
            var p := Parse(Stringify(Seal(event, prev, HashEvent(h, prev, event))));
            p.ParseOk? && SaysGenesis(p.value, runId, id, time)
  {
    var event := GenesisEvent(runId, id, time);
    var hash := HashEvent(h, prev, event);
    GenesisIsEvent(runId, id, time);
    GenesisKeys(runId, id, time);
    StoredSeal(event, prev, hash);
    KeysAreOthers();
    PastSeal(event.members, Str(prev), Str(hash), ID);
    PastSeal(event.members, Str(prev), Str(hash), TIMESTAMP);
    PastSeal(event.members, Str(prev), Str(hash), TYPE);
    PastSeal(event.members, Str(prev), Str(hash), SEVERITY);
    PastSeal(event.members, Str(prev), Str(hash), PAYLOAD);
    var payload := [Entry(RUN_ID, Str(runId)), Entry(VERSION, Num(LEDGER_VERSION))];
    assert payload[1..] == [Entry(VERSION, Num(LEDGER_VERSION))];
    assert NormalMembers(payload[1..], false) == payload[1..];
    assert NormalMembers(payload, false) == payload;
  }

  /** The calls of kind `llm_request`, in order. */
  function RequestCalls(ops: seq<Op>): seq<Call> {
    if ops == [] then []
    else
      var last := ops[|ops| - 1];
      RequestCalls(ops[..|ops| - 1]) + if last.Log? && last.call.kind == LLM_REQUEST then [last.call] else []
  }

  ghost predicate IsRequestOf(r: Request, call: Call) {
    && r.provider == Stored(Field(call.payload, Ascii("provider")))
    && r.model == Stored(Field(call.payload, Ascii("model")))
    && r.messages == Stored(Field(call.payload, Ascii("messages")))
  }

  lemma RequestIsOfCall(call: Call)
    requires ValidCall(call)
    ensures IsRequestOf(RequestOf(Normal(call.payload, false)), call)
  {
    var members := call.payload.members;
    var kept := NormalMembers(members, false);
    assert kept + [] == kept;
    LookupStored(members, [], PROVIDER);
    LookupStored(members, [], MODEL);
    LookupStored(members, [], MESSAGES);
  }

  lemma {:induction false} RequestsAreOfCalls(ops: seq<Op>)
    requires ValidOps(ops)
    ensures |RequestsCalled(ops)| == |RequestCalls(ops)|
    ensures forall k :: 0 <= k < |RequestCalls(ops)| ==> IsRequestOf(RequestsCalled(ops)[k], RequestCalls(ops)[k])
  {
    if ops != [] {
      var n := |ops| - 1;
      RequestsAreOfCalls(ops[..n]);
      if ops[n].Log? {
        RequestIsOfCall(ops[n].call);
      }
    }
  }

  /** The requests of the calls, in call order. */
  function RequestsCalled(ops: seq<Op>): seq<Request> {
    if ops == [] then []
    else
      RequestsCalled(ops[..|ops| - 1]) + OpRequests(ops[|ops| - 1])
  }

  function OpRequests(op: Op): seq<Request> {
    if op.Log? && op.call.kind == LLM_REQUEST then [RequestOf(Normal(op.call.payload, false))] else []
  }

  lemma CallRequests(before: seq<Value>, call: Call)
    requires HavePayloads(before) && ValidCall(call)
    ensures HavePayloads(before + [EventOf(call)])
    ensures RequestsLogged(before + [EventOf(call)]) ==
            RequestsLogged(before) +
            if call.kind == LLM_REQUEST then [RequestOf(Normal(call.payload, false))] else []
  {
    PayloadOfCall(call);
    assert (before + [EventOf(call)])[..|before|] == before;
  }

  lemma {:induction false} RunRequests(runId: Text, ops: seq<Op>)
    requires ValidOps(ops)
    ensures HavePayloads(EventsOf(runId, ops))
    ensures RequestsLogged(EventsOf(runId, ops)) == RequestsCalled(ops)
  {
    if ops != [] {
      var n := |ops| - 1;
      RunRequests(runId, ops[..n]);
      var before := EventsOf(runId, ops[..n]);
      var id := RunIdAfter(runId, ops[..n]);
      match ops[n]
      case Log(call, gid, time) =>
        GenesisRequests(before, id, gid, time);
        CallRequests(WithGenesis(before, id, gid, time), call);
      case OpenOnly(gid, time) => GenesisRequests(before, id, gid, time);
      case Restart(_) =>
    }
  }

  lemma GenesisRequests(before: seq<Value>, runId: Text, id: Text, time: Text)
    requires HavePayloads(before)
    ensures HavePayloads(WithGenesis(before, runId, id, time))
    ensures RequestsLogged(WithGenesis(before, runId, id, time)) == RequestsLogged(before)
  {
    PayloadOfGenesis(runId, id, time);
    assert GENESIS != LLM_REQUEST by { assert |GENESIS| != |LLM_REQUEST|; }
    assert EventRequests(GenesisEvent(runId, id, time)) == [];
  }

  lemma ContentIsSealedLines(h: Hash, events: seq<Value>)
    requires AreEvents(events)
    ensures |Lines(ContentOf(h, events))| == |events|
    ensures forall i :: 0 <= i < |events| ==> IsSealedLine(Lines(ContentOf(h, events))[i], events[i])
  {
    LinesOfContent(h, events);
    forall i | 0 <= i < |events| ensures IsSealedLine(Lines(ContentOf(h, events))[i], events[i]) {
      assert IsLineAt(h, events, Lines(ContentOf(h, events)), i);
    }
  }

  /**
   * The planner seen the file of every run without throwing and returns exactly
   * the logged `llm_request` events, in call order, each with the provider, the
   * model and the messages its call named.
   */
  lemma {:induction false} RunReplays(h: Hash, runId: Text, ops: seq<Op>)
    requires IsDigest(h) && ValidOps(ops)
    ensures Plannable(LineEvents(Lines(Run(h, NewSession([], runId), ops).content)))
    ensures RequestsOf(LineEvents(Lines(Run(h, NewSession([], runId), ops).content))) == RequestsCalled(ops)
    ensures |RequestsCalled(ops)| == |RequestCalls(ops)|
    ensures forall k :: 0 <= k < |RequestCalls(ops)| ==> IsRequestOf(RequestsCalled(ops)[k], RequestCalls(ops)[k])
  {
    RequestsAreOfCalls(ops);
    RunStands(h, runId, ops);
    var events := EventsOf(runId, ops);
    RunRequests(runId, ops);
    ContentIsSealedLines(h, events);
    EventsOfSealedLines(events, Lines(ContentOf(h, events)));
  }

  // ---- The run id, the version and the number of events ----

  /** No call logs a genesis event of its own. */
  ghost predicate NoGenesisCalls(ops: seq<Op>) {
    forall i :: 0 <= i < |ops| && ops[i].Log? ==> ops[i].call.kind != GENESIS
  }

  /** The first operation that is not a restart, which writes the genesis event. */
  ghost predicate IsFirstWrite(ops: seq<Op>, first: nat) {
    first < |ops| && !ops[first].Restart? && forall i :: 0 <= i < first ==> ops[i].Restart?
  }

  ghost predicate IsGenesisOf(event: Value, runId: Text) {
    exists id, time :: event == GenesisEvent(runId, id, time)
  }

  ghost predicate IsLaterEvent(event: Value) {
    HasPayload(event) && Field(event, TYPE).Str? && Field(event, TYPE) != Str(GENESIS)
  }

  /** One genesis event, and none after it. */
  ghost predicate BeginsWith(events: seq<Value>, runId: Text) {
    && events != [] && IsGenesisOf(events[0], runId)
    && forall i :: 0 < i < |events| ==> IsLaterEvent(events[i])
  }

  lemma {:induction false} NothingBeforeFirstWrite(runId: Text, ops: seq<Op>)
    requires forall i :: 0 <= i < |ops| ==> ops[i].Restart?
    ensures EventsOf(runId, ops) == []
  {
    if ops != [] {
      NothingBeforeFirstWrite(runId, ops[..|ops| - 1]);
    }
  }

  lemma GenesisBegins(runId: Text, id: Text, time: Text)
    ensures BeginsWith(WithGenesis([], runId, id, time), runId)
  {
    assert IsGenesisOf(GenesisEvent(runId, id, time), runId);
  }

  lemma BeginsWithMore(events: seq<Value>, runId: Text, call: Call)
    requires BeginsWith(events, runId) && ValidCall(call) && call.kind != GENESIS
    ensures BeginsWith(events + [EventOf(call)], runId)
  {
    PayloadOfCall(call);
    assert IsLaterEvent(EventOf(call));
  }

  /** After the first write the file begins with that process's genesis event. */
  lemma {:induction false} RunBeginsWithGenesis(runId: Text, ops: seq<Op>, first: nat)
    requires ValidOps(ops) && NoGenesisCalls(ops) && IsFirstWrite(ops, first)
    ensures BeginsWith(EventsOf(runId, ops), RunIdAfter(runId, ops[..first]))
  {
    var n := |ops| - 1;
    var before := EventsOf(runId, ops[..n]);
    if first < n {
      RunBeginsWithGenesis(runId, ops[..n], first);
      assert ops[..n][..first] == ops[..first];
    } else {
      NothingBeforeFirstWrite(runId, ops[..n]);
    }
    AfterBeginsWith(before, RunIdAfter(runId, ops[..n]), ops[n], RunIdAfter(runId, ops[..first]));
  }

  lemma AfterBeginsWith(before: seq<Value>, runId: Text, op: Op, genesisRunId: Text)
    requires BeginsWith(before, genesisRunId) || (before == [] && runId == genesisRunId && !op.Restart?)
    requires op.Log? ==> ValidCall(op.call) && op.call.kind != GENESIS
    ensures BeginsWith(EventsAfter(before, runId, op), genesisRunId)
  {
    match op
    case Log(call, id, time) =>
      GenesisBegins(runId, id, time);
      BeginsWithMore(WithGenesis(before, runId, id, time), genesisRunId, call);
    case OpenOnly(id, time) => GenesisBegins(runId, id, time);
    case Restart(_) =>
  }

  /** The event says which run it belongs to. */
  ghost predicate NamesRun(event: Option<Value>) {
    IsGenesis(event) && !Nullish(Field(Field(event.value, PAYLOAD), RUN_ID))
  }

  ghost predicate IsLastNaming(events: seq<Option<Value>>, i: nat) {
    i < |events| && NamesRun(events[i]) && forall j :: i < j < |events| ==> !NamesRun(events[j])
  }

  /** For any events, the plan's run id is the one of the last genesis event that has one, else empty. */
  lemma {:induction false} RunIdIsOfLastGenesis(events: seq<Option<Value>>, i: nat)
    ensures (forall k :: 0 <= k < |events| ==> !NamesRun(events[k])) ==> RunIdOf(events) == Str([])
    ensures IsLastNaming(events, i) ==> RunIdOf(events) == Field(Field(events[i].value, PAYLOAD), RUN_ID)
  {
    if events != [] {
      var n := |events| - 1;
      var before := events[..n];
      RunIdIsOfLastGenesis(before, i);
      RunIdOfLast(events, n, before);
      assert IsLastNaming(events, i) && i < n ==> IsLastNaming(before, i) && before[i] == events[i];
    }
  }

  lemma RunIdOfLast(events: seq<Option<Value>>, n: nat, before: seq<Option<Value>>)
    requires |events| == n + 1 && before == events[..n]
    ensures RunIdOf(events) == if NamesRun(events[n]) then Field(Field(events[n].value, PAYLOAD), RUN_ID)
                               else RunIdOf(before)
  {
  }

  ghost predicate IsLastGenesis(events: seq<Option<Value>>, i: nat) {
    i < |events| && IsGenesis(events[i]) && forall j :: i < j < |events| ==> !IsGenesis(events[j])
  }

  function VersionIn(event: Value): Value {
    var version := Field(Field(event, PAYLOAD), VERSION);
    if Nullish(version) then Null else version
  }

  /** The plan's version is that of the last genesis event, null if that has none or there is none. */
  lemma {:induction false} VersionIsOfLastGenesis(events: seq<Option<Value>>, i: nat)
    ensures (forall k :: 0 <= k < |events| ==> !IsGenesis(events[k])) ==> VersionOf(events) == Null
    ensures IsLastGenesis(events, i) ==> VersionOf(events) == VersionIn(events[i].value)
  {
    if events != [] {
      var n := |events| - 1;
      var before := events[..n];
      VersionIsOfLastGenesis(before, i);
      VersionOfLast(events, n, before);
      assert IsLastGenesis(events, i) && i < n ==> IsLastGenesis(before, i) && before[i] == events[i];
    }
  }

  lemma VersionOfLast(events: seq<Option<Value>>, n: nat, before: seq<Option<Value>>)
    requires |events| == n + 1 && before == events[..n]
    ensures VersionOf(events) == if IsGenesis(events[n]) then VersionIn(events[n].value) else VersionOf(before)
  {
  }

  /** What the planner finds in the genesis event. */
  ghost predicate ReadsGenesis(read: Option<Value>, runId: Text) {
    && IsGenesis(read)
    && Field(Field(read.value, PAYLOAD), RUN_ID) == Str(runId)
    && Field(Field(read.value, PAYLOAD), VERSION) == Num(LEDGER_VERSION)
  }

  lemma GenesisIsRead(read: Option<Value>, event: Value, runId: Text)
    requires IsGenesisOf(event, runId) && IsReadOf(read, event)
    ensures ReadsGenesis(read, runId)
  {
    var id, time :| event == GenesisEvent(runId, id, time);
    PayloadOfGenesis(runId, id, time);
    var payload := [Entry(RUN_ID, Str(runId)), Entry(VERSION, Num(LEDGER_VERSION))];
    assert |PAYLOAD| == 7 && |ID| == 2 && |TIMESTAMP| == 9 && |TYPE| == 4 && |SEVERITY| == 8;
    LookupAt(event.members, 4);
    assert |RUN_ID| != |VERSION|;
    LookupStored(payload, [], RUN_ID);
    LookupStored(payload, [], VERSION);
    LookupAt(payload, 0);
    LookupAt(payload, 1);
    assert NormalMembers(payload, false) + [] == NormalMembers(payload, false);
  }

  lemma {:induction false} PlanOfGenesis(seen: seq<Option<Value>>, runId: Text)
    requires seen != [] && ReadsGenesis(seen[0], runId) && forall i :: 0 < i < |seen| ==> !IsGenesis(seen[i])
    ensures RunIdOf(seen) == Str(runId) && VersionOf(seen) == Num(LEDGER_VERSION)
  {
    if |seen| > 1 {
      PlanOfGenesis(seen[..|seen| - 1], runId);
    }
  }

  lemma {:induction false} ReadOfLine(lines: seq<Text>, i: nat)
    requires i < |lines|
    ensures LineEvents(lines)[i] == LineEvent(lines[i])
  {
    if i < |lines| - 1 {
      ReadOfLine(lines[..|lines| - 1], i);
    }
  }

  lemma PlanOfSealedLines(events: seq<Value>, lines: seq<Text>, runId: Text)
    requires HavePayloads(events) && |lines| == |events| && BeginsWith(events, runId)
    requires forall i :: 0 <= i < |events| ==> IsSealedLine(lines[i], events[i])
    ensures RunIdOf(LineEvents(lines)) == Str(runId) && VersionOf(LineEvents(lines)) == Num(LEDGER_VERSION)
  {
    var seen := LineEvents(lines);
    forall i | 0 <= i < |events| ensures IsReadOf(seen[i], events[i]) {
      assert HasPayload(events[i]) && IsSealedLine(lines[i], events[i]);
      SealedLineIsRead(events[i], lines[i]);
      ReadOfLine(lines, i);
    }
    GenesisIsRead(seen[0], events[0], runId);
    forall i | 0 < i < |seen| ensures !IsGenesis(seen[i]) {
      assert IsReadOf(seen[i], events[i]) && IsLaterEvent(events[i]);
    }
    PlanOfGenesis(seen, runId);
  }

  /**
   * If no call logs a genesis event of its own, the plan of a run's file names the
   * run id of the process that first wrote to it and the ledger version, and
   * counts the genesis event and one event for each call.
   */
  lemma RunPlans(h: Hash, runId: Text, ops: seq<Op>, first: nat)
    requires IsDigest(h) && ValidOps(ops) && NoGenesisCalls(ops) && IsFirstWrite(ops, first)
    ensures var lines := Lines(Run(h, NewSession([], runId), ops).content);
            && RunIdOf(LineEvents(lines)) == Str(RunIdAfter(runId, ops[..first]))
            && VersionOf(LineEvents(lines)) == Num(LEDGER_VERSION)
            && |lines| == LogCount(ops) + 1
  {
    RunStands(h, runId, ops);
    EventCount(runId, ops);
    var events := EventsOf(runId, ops);
    RunRequests(runId, ops);
    RunBeginsWithGenesis(runId, ops, first);
    ContentIsSealedLines(h, events);
    PlanOfSealedLines(events, Lines(ContentOf(h, events)), RunIdAfter(runId, ops[..first]));
  }
}
