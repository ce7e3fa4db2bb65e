/**
 * The hash-chained event ledger: writer, verifier and replay planner. The hash
 * is an arbitrary function on texts; nothing is assumed about it except, where
 * stated, that its results have 64 characters.
 */
module Ledger {
  import opened Wrappers
  import opened Json
  import opened Canonical

  type Hash = Text -> Text

  ghost predicate IsDigest(h: Hash) {
    forall t :: |h(t)| == 64
  }

  const NEWLINE: Unit := 10
  const GENESIS_PREV_HASH := Zeros(64)
  const LEDGER_VERSION := 1

  function Zeros(n: nat): (t: Text)
    ensures |t| == n && forall i :: 0 <= i < n ==> t[i] == 48
  {
    if n == 0 then [] else [48] + Zeros(n - 1)
  }

  const ID := Ascii("id")
  const TIMESTAMP := Ascii("timestamp")
  const TYPE := Ascii("type")
  const SEVERITY := Ascii("severity")
  const TASK_ID := Ascii("taskId")
  const PAYLOAD := Ascii("payload")
  const METADATA := Ascii("metadata")
  const PREV_HASH := Ascii("prev_hash")
  const HASH := Ascii("hash")
  const RUN_ID := Ascii("runId")
  const VERSION := Ascii("ledgerVersion")
  const GENESIS := Ascii("genesis")
  const INFO := Ascii("info")
  const LLM_REQUEST := Ascii("llm_request")
  const PROVIDER := Ascii("provider")
  const MODEL := Ascii("model")
  const MESSAGES := Ascii("messages")

  // ---- Objects ----

  /** The property of an object; anything else has no properties of interest here. */
  function Field(v: Value, key: Text): Value {
    if v.Obj? then Lookup(v.members, key) else Undefined
  }

  function Lookup(members: seq<Entry<Value>>, key: Text): Value {
    if members == [] then Undefined
    else if members[0].key == key then members[0].value
    else Lookup(members[1..], key)
  }

  function WithoutSeal(members: seq<Entry<Value>>): seq<Entry<Value>> {
    if members == [] then []
    else if members[0].key == PREV_HASH || members[0].key == HASH then WithoutSeal(members[1..])
    else [members[0]] + WithoutSeal(members[1..])
  }

  // ---- Lines of a file ----

  function LineEnd(t: Text): (n: nat)
    ensures n <= |t|
    ensures NEWLINE !in t[..n] && (n < |t| ==> t[n] == NEWLINE)
  {
    if t == [] || t[0] == NEWLINE then 0 else 1 + LineEnd(t[1..])
  }

  /** The non-empty lines of a text. */
  function Lines(t: Text): seq<Text>
    decreases |t|
  {
    if t == [] then []
    else
      var n := LineEnd(t);
      var rest := if n < |t| then Lines(t[n + 1..]) else [];
      if n == 0 then rest else [t[..n]] + rest
  }

  // ---- Events ----

  /** What `log` is called with, and the id and time it draws. */
  datatype Call = Call(
    id: Text, timestamp: Text, kind: Text, severity: Text, taskId: Value, payload: Value, metadata: Value)

  function EventOf(c: Call): Value {
    Obj([Entry(ID, Str(c.id)), Entry(TIMESTAMP, Str(c.timestamp)), Entry(TYPE, Str(c.kind)),
         Entry(SEVERITY, Str(c.severity)), Entry(TASK_ID, c.taskId), Entry(PAYLOAD, c.payload),
         Entry(METADATA, c.metadata)])
  }

  function GenesisEvent(runId: Text, id: Text, timestamp: Text): Value {
    Obj([Entry(ID, Str(id)), Entry(TIMESTAMP, Str(timestamp)), Entry(TYPE, Str(GENESIS)),
         Entry(SEVERITY, Str(INFO)),
         Entry(PAYLOAD, Obj([Entry(RUN_ID, Str(runId)), Entry(VERSION, Num(LEDGER_VERSION))]))])
  }

  function HashEvent(h: Hash, prevHash: Text, event: Value): Text
    requires event != Undefined
  {
    h(prevHash + Canonicalize(event))
  }

  function Seal(event: Value, prevHash: Text, hash: Text): Value
    requires event.Obj?
  {
    Obj(event.members + [Entry(PREV_HASH, Str(prevHash)), Entry(HASH, Str(hash))])
  }

  /** The line `appendFile` adds for an event chained to `prevHash`. */
  function SealedLine(h: Hash, prevHash: Text, event: Value): Text
    requires event.Obj?
  {
    Stringify(Seal(event, prevHash, HashEvent(h, prevHash, event))) + [NEWLINE]
  }

  // ---- The writer ----

  /** A ledger object and its file. */
  datatype Session = Session(content: Text, runId: Text, isOpen: bool, lastHash: Text)

  function NewSession(content: Text, runId: Text): Session {
    Session(content, runId, false, GENESIS_PREV_HASH)
  }

  /** `parsed.hash` of a line when it is a non-empty string. */
  function HashOfLine(line: Text, otherwise: Text): Text {
    match Parse(line)
    case ParseError => otherwise
    case ParseOk(v) =>
      match Field(v, HASH)
      case Str(s) => if s == [] then otherwise else s
      case _ => otherwise
  }

  function LastLineHash(lines: seq<Text>, otherwise: Text): Text {
    if lines == [] then otherwise else HashOfLine(lines[|lines| - 1], otherwise)
  }

  function LoadLastHash(content: Text, otherwise: Text): Text {
    LastLineHash(Lines(content), otherwise)
  }

  function AppendEvent(h: Hash, s: Session, event: Value): Session
    requires event.Obj?
  {
    s.(content := s.content + SealedLine(h, s.lastHash, event), lastHash := HashEvent(h, s.lastHash, event))
  }

  /** `init`: the first use of a ledger object writes the genesis line or picks up the chain. */
  function Open(h: Hash, s: Session, id: Text, timestamp: Text): Session {
    if s.isOpen then s
    else if s.content == [] then
      var begun := AppendEvent(h, s.(lastHash := GENESIS_PREV_HASH), GenesisEvent(s.runId, id, timestamp));
      begun.(isOpen := true)
    else s.(isOpen := true, lastHash := LoadLastHash(s.content, s.lastHash))
  }

  /**
   * One entry of the write queue. A restart replaces the ledger object; it can
   * also follow `OpenOnly`, when the process ends after the genesis line.
   */
  datatype Op =
    | Log(call: Call, genesisId: Text, genesisTime: Text)
    | OpenOnly(genesisId: Text, genesisTime: Text)
    | Restart(runId: Text)

  function Apply(h: Hash, s: Session, op: Op): Session {
    match op
    case Log(call, id, time) => AppendEvent(h, Open(h, s, id, time), EventOf(call))
    case OpenOnly(id, time) => Open(h, s, id, time)
    case Restart(runId) => NewSession(s.content, runId)
  }

  function Run(h: Hash, s: Session, ops: seq<Op>): Session {
    if ops == [] then s else Apply(h, Run(h, s, ops[..|ops| - 1]), ops[|ops| - 1])
  }

  class LogFile {
    var content: Text

    constructor ()
      ensures content == []
    {
      content := [];
    }
  }

  /** The ledger object of the source; the queue runs one `Log` at a time. */
  class EventLedger {
    const hash: Hash
    const runId: Text
    const file: LogFile
    var isOpen: bool
    var lastHash: Text

    ghost function State(): Session
      reads this, file
    {
      Session(file.content, runId, isOpen, lastHash)
    }

    constructor (hash: Hash, runId: Text, file: LogFile)
      ensures this.hash == hash && this.file == file
      ensures State() == NewSession(file.content, runId)
    {
      this.hash, this.runId, this.file := hash, runId, file;
      isOpen, lastHash := false, GENESIS_PREV_HASH;
    }

    method WriteGenesis(id: Text, timestamp: Text)
      requires !isOpen && file.content == []
      modifies this, file
      ensures State() == Open(hash, old(State()), id, timestamp).(isOpen := false)
    {
      var event := GenesisEvent(runId, id, timestamp);
      var digest := HashEvent(hash, GENESIS_PREV_HASH, event);
      file.content := file.content + Stringify(Seal(event, GENESIS_PREV_HASH, digest)) + [NEWLINE];
      lastHash := digest;
    }

    method Init(id: Text, timestamp: Text)
      modifies this, file
      ensures State() == Open(hash, old(State()), id, timestamp)
    {
      if !isOpen {
        if |file.content| == 0 {
          WriteGenesis(id, timestamp);
        } else {
          lastHash := LoadLastHash(file.content, lastHash);
        }
        isOpen := true;
      }
    }

    method LogEvent(call: Call, genesisId: Text, genesisTime: Text)
      modifies this, file
      ensures State() == Apply(hash, old(State()), Log(call, genesisId, genesisTime))
    {
      Init(genesisId, genesisTime);
      var event := EventOf(call);
      var digest := HashEvent(hash, lastHash, event);
      file.content := file.content + (Stringify(Seal(event, lastHash, digest)) + [NEWLINE]);
      lastHash := digest;
    }
  }

  // ---- The verifier ----

  datatype Reason = InvalidJson | MissingHash | PrevHashMismatch | HashMismatch

  datatype Verdict = Legacy | Chained(hash: Text) | Rejected(reason: Reason) | Thrown

  /** What the verifier makes of one line when the chain stands at `prevHash`. */
  function Judge(h: Hash, line: Text, prevHash: Text): Verdict {
    match Parse(line)
    case ParseError => Rejected(InvalidJson)
    case ParseOk(v) =>
      if v.Null? then Thrown
      else if Field(v, HASH) == Undefined && Field(v, PREV_HASH) == Undefined then Legacy
      else if Field(v, HASH) == Undefined || Field(v, PREV_HASH) == Undefined then Rejected(MissingHash)
      else if Field(v, PREV_HASH) != Str(prevHash) then Rejected(PrevHashMismatch)
      else
        var expected := HashEvent(h, prevHash, Obj(WithoutSeal(v.members)));
        if Field(v, HASH) != Str(expected) then Rejected(HashMismatch) else Chained(expected)
  }

  /** Where the chain stands before line `n`. */
  function ChainAt(h: Hash, lines: seq<Text>, n: nat): Text
    requires n <= |lines|
  {
    if n == 0 then GENESIS_PREV_HASH
    else
      var prev := ChainAt(h, lines, n - 1);
      match Judge(h, lines[n - 1], prev)
      case Chained(hash) => hash
      case _ => prev
  }

  function VerdictAt(h: Hash, lines: seq<Text>, i: nat): Verdict
    requires i < |lines|
  {
    Judge(h, lines[i], ChainAt(h, lines, i))
  }

  ghost predicate AcceptedUpTo(h: Hash, lines: seq<Text>, n: nat)
    requires n <= |lines|
  {
    forall i :: 0 <= i < n ==> VerdictAt(h, lines, i).Legacy? || VerdictAt(h, lines, i).Chained?
  }

  ghost predicate AllLegacy(h: Hash, lines: seq<Text>) {
    forall i :: 0 <= i < |lines| ==> VerdictAt(h, lines, i).Legacy?
  }

  ghost predicate AllChained(h: Hash, lines: seq<Text>) {
    forall i :: 0 <= i < |lines| ==> VerdictAt(h, lines, i).Chained?
  }

  // ---- The replay planner ----

  datatype Request = Request(provider: Value, model: Value, messages: Value)

  datatype Plan = Plan(runId: Value, totalEvents: nat, llmRequests: seq<Request>, ledgerVersion: Value)

  function RequestOf(payload: Value): Request {
    Request(Field(payload, PROVIDER), Field(payload, MODEL), Field(payload, MESSAGES))
  }

  predicate Nullish(v: Value) {
    v.Undefined? || v.Null?
  }

  /** The event of a line, or `None` where `buildPlan` throws on it. */
  function LineEvent(line: Text): Option<Value> {
    match Parse(line)
    case ParseError => None
    case ParseOk(v) =>
      if v.Null? then None
      else if Field(v, TYPE) in {Str(GENESIS), Str(LLM_REQUEST)} && Nullish(Field(v, PAYLOAD)) then None
      else Some(v)
  }

  predicate IsRequest(event: Value) {
    Field(event, TYPE) == Str(LLM_REQUEST)
  }

  function LineRequests(event: Option<Value>): seq<Request> {
    if event.Some? && IsRequest(event.value) then [RequestOf(Field(event.value, PAYLOAD))] else []
  }

  function LineEvents(lines: seq<Text>): (events: seq<Option<Value>>)
    ensures |events| == |lines|
  {
    if lines == [] then [] else LineEvents(lines[..|lines| - 1]) + [LineEvent(lines[|lines| - 1])]
  }

  /** The requests among the events, in order. */
  function RequestsOf(events: seq<Option<Value>>): seq<Request> {
    if events == [] then []
    else RequestsOf(events[..|events| - 1]) + LineRequests(events[|events| - 1])
  }

  predicate IsGenesis(event: Option<Value>) {
    event.Some? && Field(event.value, TYPE) == Str(GENESIS)
  }

  /** The run id of the last genesis event that names one. */
  function RunIdOf(events: seq<Option<Value>>): Value {
    if events == [] then Str([])
    else
      var last := events[|events| - 1];
      if IsGenesis(last) && !Nullish(Field(Field(last.value, PAYLOAD), RUN_ID))
      then Field(Field(last.value, PAYLOAD), RUN_ID)
      else RunIdOf(events[..|events| - 1])
  }

  /** The version the last genesis event states. */
  function VersionOf(events: seq<Option<Value>>): Value {
    if events == [] then Null
    else
      var last := events[|events| - 1];
      if !IsGenesis(last) then VersionOf(events[..|events| - 1])
      else if Nullish(Field(Field(last.value, PAYLOAD), VERSION)) then Null
      else Field(Field(last.value, PAYLOAD), VERSION)
  }

  ghost predicate Plannable(events: seq<Option<Value>>) {
    forall i :: 0 <= i < |events| ==> events[i].Some?
  }

  /** The replay plan; `None` when the source throws. */
  method BuildPlan(content: Text) returns (plan: Option<Plan>)
    ensures plan.Some? <==> Plannable(LineEvents(Lines(content)))
    ensures plan.Some? ==> plan.value.totalEvents == |Lines(content)|
    ensures plan.Some? ==> plan.value.llmRequests == RequestsOf(LineEvents(Lines(content)))
    ensures plan.Some? ==> plan.value.runId == RunIdOf(LineEvents(Lines(content)))
    ensures plan.Some? ==> plan.value.ledgerVersion == VersionOf(LineEvents(Lines(content)))
  {
    plan := PlanEvents(LineEvents(Lines(content)));
  }

  method PlanEvents(events: seq<Option<Value>>) returns (plan: Option<Plan>)
    ensures plan.Some? <==> Plannable(events)
    ensures plan.Some? ==> plan.value == Plan(RunIdOf(events), |events|, RequestsOf(events), VersionOf(events))
  {
    var ledgerVersion, runId: Value := Null, Str([]);
    var llmRequests := [];
    for i := 0 to |events|
      invariant runId == RunIdOf(events[..i]) && ledgerVersion == VersionOf(events[..i])
      invariant llmRequests == RequestsOf(events[..i])
      invariant Plannable(events[..i])
    {
      assert events[..i + 1][..i] == events[..i];
      if events[i].None? { return None; }
      var event := events[i].value;
      assert GENESIS != LLM_REQUEST by { assert |GENESIS| != |LLM_REQUEST|; }
      if Field(event, TYPE) == Str(GENESIS) {
        var p := Field(event, PAYLOAD);
        runId := if Nullish(Field(p, RUN_ID)) then runId else Field(p, RUN_ID);
        ledgerVersion := if Nullish(Field(p, VERSION)) then Null else Field(p, VERSION);
      } else if IsRequest(event) {
        llmRequests := llmRequests + [RequestOf(Field(event, PAYLOAD))];
      }
    }
    assert events[..|events|] == events;
    plan := Some(Plan(runId, |events|, llmRequests, ledgerVersion));
  }
}
