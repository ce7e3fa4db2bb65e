/** What the writer produces is accepted by the verifier and read back by the planner. */
module LedgerChain {
  import opened Json
  import opened JsonRoundTrip
  import opened Canonical
  import opened Ledger

  // ---- Printed values contain no line break ----

  ghost predicate Printable(t: Text) {
    forall i :: 0 <= i < |t| ==> t[i] >= 32
  }

  lemma {:induction false} DigitsPrintable(n: nat)
    ensures Printable(Digits(n))
  {
    if n >= 10 {
      DigitsPrintable(n / 10);
    }
  }

  lemma {:induction false} EscapePrintable(s: Text)
    ensures Printable(Escape(s))
    decreases |s|
  {
    if s != [] {
      if |s| >= 2 && IsHigh(s[0]) && IsLow(s[1]) {
        EscapePrintable(s[2..]);
      } else {
        EscapePrintable(s[1..]);
        assert Printable(EscapeUnit(s[0]));
      }
    }
  }

  lemma {:induction false} JoinPrintable(parts: seq<Text>)
    requires forall i :: 0 <= i < |parts| ==> Printable(parts[i])
    ensures Printable(Join(parts))
  {
    if |parts| > 1 {
      JoinPrintable(parts[1..]);
      assert Printable(parts[0]);
    }
  }

  lemma KeyedPrintable(entries: seq<Entry<Text>>)
    requires forall i :: 0 <= i < |entries| ==> Printable(entries[i].value)
    ensures Printable(Join(KeyedTexts(entries)))
  {
    forall i | 0 <= i < |entries| ensures Printable(KeyedTexts(entries)[i]) {
      EscapePrintable(entries[i].key);
    }
    JoinPrintable(KeyedTexts(entries));
  }

  lemma {:induction false} StringifyPrintable(v: Value)
    requires v != Undefined
    ensures Printable(Stringify(v))
    decreases v, 1
  {
    match v
    case Num(n) => DigitsPrintable(if n < 0 then -n else n);
    case Str(s) => EscapePrintable(s);
    case Arr(items) =>
      ItemsPrintable(v, items);
      JoinPrintable(StringifyItems(items));
    case Obj(members) =>
      MembersPrintable(v, members);
      KeyedPrintable(StringifyMembers(members));
    case _ =>
  }

  lemma {:induction false} ItemsPrintable(v: Value, items: seq<Value>)
    requires forall i :: 0 <= i < |items| ==> items[i] < v
    ensures forall i :: 0 <= i < |StringifyItems(items)| ==> Printable(StringifyItems(items)[i])
    decreases v, 0, |items|
  {
    if items != [] {
      ItemsPrintable(v, items[1..]);
      if items[0] != Undefined {
        StringifyPrintable(items[0]);
      }
    }
  }

  lemma {:induction false} MembersPrintable(v: Value, members: seq<Entry<Value>>)
    requires forall i :: 0 <= i < |members| ==> members[i].value < v
    ensures forall i :: 0 <= i < |StringifyMembers(members)| ==> Printable(StringifyMembers(members)[i].value)
    decreases v, 0, |members|
  {
    if members != [] {
      MembersPrintable(v, members[1..]);
      if members[0].value != Undefined {
        StringifyPrintable(members[0].value);
      }
    }
  }

  // ---- Lines ----

  /** The text is empty or ends with a line break. */
  ghost predicate AtLineBoundary(t: Text) {
    t != [] ==> t[|t| - 1] == NEWLINE
  }

  lemma {:induction false} LineEndFirst(t: Text, n: nat)
    requires n < |t| && t[n] == NEWLINE && NEWLINE !in t[..n]
    ensures LineEnd(t) == n
  {
    if n > 0 {
      assert t[0] == t[..n][0] && t[..n][1..] == t[1..][..n - 1];
      LineEndFirst(t[1..], n - 1);
    }
  }

  /** Appending a line to a text that ends with a line break adds exactly that line. */
  lemma {:induction false} AppendLine(t: Text, line: Text)
    requires AtLineBoundary(t) && line != [] && NEWLINE !in line
    ensures Lines(t + (line + [NEWLINE])) == Lines(t) + [line]
    ensures AtLineBoundary(t + (line + [NEWLINE]))
    decreases |t|
  {
    if t == [] {
      OneLine(line);
      assert t + (line + [NEWLINE]) == line + [NEWLINE];
    } else {
      var n := LineEnd(t);
      var tail := t[n + 1..];
      AppendLine(tail, line);
      PrependLine(t, n, tail, line + [NEWLINE], line);
    }
  }

  lemma PrependLine(t: Text, n: nat, tail: Text, more: Text, line: Text)
    requires n == LineEnd(t) && n < |t| && tail == t[n + 1..] && Lines(tail + more) == Lines(tail) + [line]
    ensures Lines(t + more) == Lines(t) + [line]
  {
    SplitFirstLine(t, n, tail);
    SplitLonger(t, n, tail, more);
    Regroup(NonEmpty(t[..n]), Lines(tail), line);
  }

  lemma SplitLonger(t: Text, n: nat, tail: Text, more: Text)
    requires n == LineEnd(t) && n < |t| && tail == t[n + 1..]
    ensures Lines(t + more) == NonEmpty(t[..n]) + Lines(tail + more)
  {
    FirstLineStays(t, more, n);
    SplitFirstLine(t + more, n, tail + more);
  }

  lemma Regroup(a: seq<Text>, b: seq<Text>, line: Text)
    ensures a + (b + [line]) == (a + b) + [line]
  {
  }

  lemma OneLine(line: Text)
    requires line != [] && NEWLINE !in line
    ensures Lines(line + [NEWLINE]) == [line]
  {
    var t := line + [NEWLINE];
    assert t[..|line|] == line && t[|line| + 1..] == [];
    LineEndFirst(t, |line|);
  }

  /** A line if it is not empty. */
  function NonEmpty(line: Text): seq<Text> {
    if line == [] then [] else [line]
  }

  lemma SplitFirstLine(t: Text, n: nat, tail: Text)
    requires t != [] && n == LineEnd(t) && n < |t| && tail == t[n + 1..]
    ensures Lines(t) == NonEmpty(t[..n]) + Lines(tail)
  {
    if n == 0 {
      assert t[..n] == [];
      assert [] + Lines(tail) == Lines(tail);
    } else {
      assert t[..n] != [];
    }
  }

  lemma FirstLineStays(t: Text, more: Text, n: nat)
    requires n == LineEnd(t) && n < |t| && t[n] == NEWLINE && NEWLINE !in t[..n]
    ensures LineEnd(t + more) == n && (t + more)[..n] == t[..n] && (t + more)[n + 1..] == t[n + 1..] + more
  {
    assert (t + more)[..n] == t[..n];
    LineEndFirst(t + more, n);
  }

  // ---- The chain of a list of events ----

  /** An object `log` can seal: well-formed and without the two seal fields. */
  ghost predicate IsEvent(v: Value) {
    v.Obj? && WellFormed(v) && Unsealed(v.members)
  }

  ghost predicate Unsealed(members: seq<Entry<Value>>) {
    forall i :: 0 <= i < |members| ==> members[i].key != PREV_HASH && members[i].key != HASH
  }

  ghost predicate AreEvents(events: seq<Value>) {
    forall i :: 0 <= i < |events| ==> IsEvent(events[i])
  }

  /** Where the chain stands after the events. */
  ghost function ChainHash(h: Hash, events: seq<Value>): Text
    requires AreEvents(events)
  {
    if events == [] then GENESIS_PREV_HASH
    else HashEvent(h, ChainHash(h, events[..|events| - 1]), events[|events| - 1])
  }

  ghost function SealedAt(h: Hash, events: seq<Value>, i: nat): Value
    requires AreEvents(events) && i < |events|
  {
    Seal(events[i], ChainHash(h, events[..i]), ChainHash(h, events[..i + 1]))
  }

  /** The file of the events. */
  ghost function ContentOf(h: Hash, events: seq<Value>): Text
    requires AreEvents(events)
  {
    if events == [] then []
    else
      var n := |events| - 1;
      ContentOf(h, events[..n]) + SealedLine(h, ChainHash(h, events[..n]), events[n])
  }

  lemma ChainHashStep(h: Hash, events: seq<Value>, i: nat)
    requires AreEvents(events) && i < |events|
    ensures ChainHash(h, events[..i + 1]) == HashEvent(h, ChainHash(h, events[..i]), events[i])
  {
    assert events[..i + 1][..i] == events[..i];
  }

  lemma SealedAtPrefix(h: Hash, events: seq<Value>, n: nat, i: nat)
    requires AreEvents(events) && i < n <= |events|
    ensures SealedAt(h, events[..n], i) == SealedAt(h, events, i)
  {
    assert events[..n][..i] == events[..i] && events[..n][..i + 1] == events[..i + 1];
  }

  lemma ContentStep(h: Hash, events: seq<Value>, n: nat)
    requires AreEvents(events) && |events| == n + 1
    ensures ContentOf(h, events) == ContentOf(h, events[..n]) + (Stringify(SealedAt(h, events, n)) + [NEWLINE])
  {
    ChainHashStep(h, events, n);
  }

  /** A printed value and a newline add one line. */
  lemma AppendValue(t: Text, v: Value, longer: Text)
    requires AtLineBoundary(t) && v != Undefined && longer == t + (Stringify(v) + [NEWLINE])
    ensures AtLineBoundary(longer) && Lines(longer) == Lines(t) + [Stringify(v)]
  {
    StringifyPrintable(v);
    FirstOfValue(v);
    AppendLine(t, Stringify(v));
  }

  /** The `i`-th line is the `i`-th sealed event. */
  ghost predicate IsLineAt(h: Hash, events: seq<Value>, lines: seq<Text>, i: nat)
    requires AreEvents(events) && i < |events|
  {
    i < |lines| && lines[i] == Stringify(SealedAt(h, events, i))
  }

  ghost predicate AreSealedLines(h: Hash, events: seq<Value>, lines: seq<Text>)
    requires AreEvents(events)
  {
    |lines| == |events| && forall i :: 0 <= i < |events| ==> IsLineAt(h, events, lines, i)
  }

  lemma LineStaysAt(h: Hash, events: seq<Value>, n: nat, lines: seq<Text>, last: Text, i: nat)
    requires AreEvents(events) && i < n < |events| && IsLineAt(h, events[..n], lines, i)
    ensures IsLineAt(h, events, lines + [last], i)
  {
    SealedAtPrefix(h, events, n, i);
  }

  lemma OneMoreLine(h: Hash, events: seq<Value>, n: nat, lines: seq<Text>, last: Text)
    requires AreEvents(events) && |events| == n + 1 && AreSealedLines(h, events[..n], lines)
    requires last == Stringify(SealedAt(h, events, n))
    ensures AreSealedLines(h, events, lines + [last])
  {
    forall i | 0 <= i < |events| ensures IsLineAt(h, events, lines + [last], i) {
      if i < n {
        assert IsLineAt(h, events[..n], lines, i);
        LineStaysAt(h, events, n, lines, last, i);
      }
    }
  }

  lemma {:induction false} LinesOfContent(h: Hash, events: seq<Value>)
    requires AreEvents(events)
    ensures AtLineBoundary(ContentOf(h, events)) && AreSealedLines(h, events, Lines(ContentOf(h, events)))
  {
    if events != [] {
      var n := |events| - 1;
      LinesOfContent(h, events[..n]);
      ContentStep(h, events, n);
      AppendValue(ContentOf(h, events[..n]), SealedAt(h, events, n), ContentOf(h, events));
      OneMoreLine(h, events, n, Lines(ContentOf(h, events[..n])), Stringify(SealedAt(h, events, n)));
    }
  }

  // ---- One sealed line ----

  lemma {:induction false} LookupPast(members: seq<Entry<Value>>, more: seq<Entry<Value>>, key: Text)
    requires forall i :: 0 <= i < |members| ==> members[i].key != key
    ensures Lookup(members + more, key) == Lookup(more, key)
  {
    if members == [] {
      assert members + more == more;
    } else {
      assert (members + more)[1..] == members[1..] + more;
      LookupPast(members[1..], more, key);
    }
  }

  lemma {:induction false} WithoutSealOf(members: seq<Entry<Value>>, a: Value, b: Value)
    requires Unsealed(members)
    ensures WithoutSeal(members + [Entry(PREV_HASH, a), Entry(HASH, b)]) == members
  {
    var seal := [Entry(PREV_HASH, a), Entry(HASH, b)];
    if members == [] {
      assert members + seal == seal;
      assert seal[1..] == [Entry(HASH, b)];
      assert WithoutSeal(seal[1..]) == WithoutSeal([]);
    } else {
      assert (members + seal)[1..] == members[1..] + seal;
      WithoutSealOf(members[1..], a, b);
    }
  }

  lemma {:induction false} NormalOfAppended(members: seq<Entry<Value>>, more: seq<Entry<Value>>)
    ensures NormalMembers(members + more, false) == NormalMembers(members, false) + NormalMembers(more, false)
  {
    if members == [] {
      assert members + more == more;
    } else {
      assert (members + more)[1..] == members[1..] + more;
      NormalOfAppended(members[1..], more);
    }
  }

  lemma {:induction false} NormalStaysUnsealed(members: seq<Entry<Value>>)
    requires Unsealed(members)
    ensures Unsealed(NormalMembers(members, false))
  {
    if members != [] {
      NormalStaysUnsealed(members[1..]);
    }
  }

  lemma SealIsWellFormed(event: Value, a: Text, b: Text)
    requires IsEvent(event)
    ensures WellFormed(Seal(event, a, b))
  {
    var sealed := Seal(event, a, b).members;
    assert PREV_HASH != HASH by { assert |PREV_HASH| != |HASH|; }
  }

  /** The members of a sealed event after it was stored and parsed. */
  lemma StoredSeal(event: Value, a: Text, b: Text)
    requires IsEvent(event)
    ensures Parse(Stringify(Seal(event, a, b))) ==
            ParseOk(Obj(NormalMembers(event.members, false) + [Entry(PREV_HASH, Str(a)), Entry(HASH, Str(b))]))
    ensures Unsealed(NormalMembers(event.members, false))
  {
    var seal := [Entry(PREV_HASH, Str(a)), Entry(HASH, Str(b))];
    SealIsWellFormed(event, a, b);
    StringifyRoundTrip(Seal(event, a, b));
    NormalOfAppended(event.members, seal);
    assert NormalMembers(seal, false) == seal by {
      assert seal[1..] == [Entry(HASH, Str(b))];
      assert NormalMembers(seal[1..], false) == seal[1..];
    }
    NormalStaysUnsealed(event.members);
  }

  lemma SealFields(members: seq<Entry<Value>>, a: Value, b: Value)
    requires Unsealed(members)
    ensures Field(Obj(members + [Entry(PREV_HASH, a), Entry(HASH, b)]), PREV_HASH) == a
    ensures Field(Obj(members + [Entry(PREV_HASH, a), Entry(HASH, b)]), HASH) == b
  {
    var seal := [Entry(PREV_HASH, a), Entry(HASH, b)];
    LookupPast(members, seal, PREV_HASH);
    LookupPast(members, seal, HASH);
    assert PREV_HASH != HASH by { assert |PREV_HASH| != |HASH|; }
    assert seal[1..] == [Entry(HASH, b)];
  }

  /** A stored event has the canonical text of the original. */
  lemma StoredEventHash(h: Hash, prev: Text, event: Value)
    requires IsEvent(event)
    ensures HashEvent(h, prev, Obj(NormalMembers(event.members, false))) == HashEvent(h, prev, event)
  {
    CanonicalSurvivesStorage(event);
    StringifyRoundTrip(event);
  }

  /** The verifier recomputes the hash that the writer stored. */
  lemma SealedLineIsChained(h: Hash, prev: Text, event: Value)
    requires IsEvent(event)
    ensures Judge(h, Stringify(Seal(event, prev, HashEvent(h, prev, event))), prev)
         == Chained(HashEvent(h, prev, event))
  {
    var hash := HashEvent(h, prev, event);
    var members := NormalMembers(event.members, false);
    StoredSeal(event, prev, hash);
    SealFields(members, Str(prev), Str(hash));
    WithoutSealOf(members, Str(prev), Str(hash));
    StoredEventHash(h, prev, event);
  }

  lemma SealedLineAtIsChained(h: Hash, events: seq<Value>, lines: seq<Text>, n: nat)
    requires AreEvents(events) && n < |events| && IsLineAt(h, events, lines, n)
    requires ChainAt(h, lines, n) == ChainHash(h, events[..n])
    ensures VerdictAt(h, lines, n) == Chained(ChainHash(h, events[..n + 1]))
    ensures ChainAt(h, lines, n + 1) == ChainHash(h, events[..n + 1])
  {
    ChainHashStep(h, events, n);
    SealedLineIsChained(h, ChainHash(h, events[..n]), events[n]);
  }

  lemma {:induction false} LinesChain(h: Hash, events: seq<Value>, lines: seq<Text>, n: nat)
    requires AreEvents(events) && n <= |events| == |lines|
    requires forall i :: 0 <= i < |events| ==> IsLineAt(h, events, lines, i)
    ensures ChainAt(h, lines, n) == ChainHash(h, events[..n])
  {
    if n > 0 {
      var m := n - 1;
      LinesChain(h, events, lines, m);
      SealedLineAtIsChained(h, events, lines, m);
      assert m + 1 == n;
    }
  }

  /** Along the file of a list of events the verifier's chain is the writer's chain. */
  lemma ContentChains(h: Hash, events: seq<Value>, n: nat)
    requires AreEvents(events) && n <= |events|
    ensures |Lines(ContentOf(h, events))| == |events|
    ensures ChainAt(h, Lines(ContentOf(h, events)), n) == ChainHash(h, events[..n])
    ensures n < |events| ==> VerdictAt(h, Lines(ContentOf(h, events)), n) == Chained(ChainHash(h, events[..n + 1]))
  {
    var lines := Lines(ContentOf(h, events));
    LinesOfContent(h, events);
    LinesChain(h, events, lines, n);
    if n < |events| {
      SealedLineAtIsChained(h, events, lines, n);
    }
  }

  // ---- Runs of the writer ----

  ghost predicate ValidCall(c: Call) {
    WellFormed(c.taskId) && WellFormed(c.payload) && WellFormed(c.metadata) && c.payload.Obj?
  }

  ghost predicate ValidOps(ops: seq<Op>) {
    forall i :: 0 <= i < |ops| && ops[i].Log? ==> ValidCall(ops[i].call)
  }

  /** The events the operations log: one genesis event before the first, then one per call. */
  ghost function EventsOf(runId: Text, ops: seq<Op>): seq<Value> {
    if ops == [] then []
    else
      var n := |ops| - 1;
      EventsAfter(EventsOf(runId, ops[..n]), RunIdAfter(runId, ops[..n]), ops[n])
  }

  ghost function WithGenesis(before: seq<Value>, runId: Text, id: Text, time: Text): seq<Value> {
    if before == [] then [GenesisEvent(runId, id, time)] else before
  }

  ghost function RunIdAfter(runId: Text, ops: seq<Op>): Text {
    if ops == [] then runId
    else if ops[|ops| - 1].Restart? then ops[|ops| - 1].runId
    else RunIdAfter(runId, ops[..|ops| - 1])
  }

  lemma KeysDiffer()
    ensures TIMESTAMP != PREV_HASH && TYPE != HASH && SEVERITY != METADATA
  {
    assert TIMESTAMP[0] != PREV_HASH[0];
    assert TYPE[0] != HASH[0];
    assert SEVERITY[0] != METADATA[0];
  }

  lemma CallIsEvent(c: Call)
    requires ValidCall(c)
    ensures IsEvent(EventOf(c))
  {
    KeysDiffer();
  }

  lemma GenesisIsEvent(runId: Text, id: Text, time: Text)
    ensures IsEvent(GenesisEvent(runId, id, time))
  {
    KeysDiffer();
    assert |RUN_ID| != |VERSION|;
    var payload := Obj([Entry(RUN_ID, Str(runId)), Entry(VERSION, Num(LEDGER_VERSION))]);
    assert WellFormed(payload);
  }

  /** The session stands after the events: its file and its last hash are theirs. */
  ghost predicate StandsAfter(h: Hash, s: Session, events: seq<Value>) {
    && AreEvents(events) && s.content == ContentOf(h, events)
    && (s.isOpen ==> events != [] && s.lastHash == ChainHash(h, events))
    && (!s.isOpen ==> s.lastHash == GENESIS_PREV_HASH)
  }

  lemma ContentIsEmptyOnlyInitially(h: Hash, events: seq<Value>)
    requires AreEvents(events)
    ensures ContentOf(h, events) == [] <==> events == []
  {
    if events != [] {
      var n := |events| - 1;
      assert SealedLine(h, ChainHash(h, events[..n]), events[n]) != [];
    }
  }

  lemma AppendStands(h: Hash, s: Session, events: seq<Value>, event: Value)
    requires AreEvents(events) && s.content == ContentOf(h, events) && s.lastHash == ChainHash(h, events)
    requires IsEvent(event)
    ensures AreEvents(events + [event])
    ensures AppendEvent(h, s, event).content == ContentOf(h, events + [event])
    ensures AppendEvent(h, s, event).lastHash == ChainHash(h, events + [event])
  {
    assert (events + [event])[..|events|] == events;
  }

  lemma HashOfSealedLine(event: Value, prev: Text, hash: Text, otherwise: Text)
    requires IsEvent(event) && hash != []
    ensures HashOfLine(Stringify(Seal(event, prev, hash)), otherwise) == hash
  {
    StoredSeal(event, prev, hash);
    SealFields(NormalMembers(event.members, false), Str(prev), Str(hash));
  }

  lemma ChainHashLength(h: Hash, events: seq<Value>)
    requires IsDigest(h) && AreEvents(events)
    ensures |ChainHash(h, events)| == 64
  {
  }

  /** After a restart the writer finds the hash where the chain was left. */
  lemma {:induction false} RestartFindsHash(h: Hash, events: seq<Value>, otherwise: Text)
    requires IsDigest(h) && AreEvents(events) && events != []
    ensures LoadLastHash(ContentOf(h, events), otherwise) == ChainHash(h, events)
  {
    var n := |events| - 1;
    LinesOfContent(h, events);
    assert IsLineAt(h, events, Lines(ContentOf(h, events)), n);
    assert events[..n + 1] == events;
    ChainHashLength(h, events);
    HashOfSealedLine(events[n], ChainHash(h, events[..n]), ChainHash(h, events), otherwise);
  }

  lemma OpenStands(h: Hash, s: Session, events: seq<Value>, id: Text, time: Text)
    requires IsDigest(h) && StandsAfter(h, s, events)
    ensures StandsAfter(h, Open(h, s, id, time), WithGenesis(events, s.runId, id, time))
    ensures Open(h, s, id, time).isOpen && Open(h, s, id, time).runId == s.runId
  {
    ContentIsEmptyOnlyInitially(h, events);
    if !s.isOpen {
      if events == [] {
        GenesisIsEvent(s.runId, id, time);
        AppendStands(h, s, events, GenesisEvent(s.runId, id, time));
        assert events + [GenesisEvent(s.runId, id, time)] == [GenesisEvent(s.runId, id, time)];
      } else {
        RestartFindsHash(h, events, s.lastHash);
      }
    }
  }

  /** The events after one more operation. */
  ghost function EventsAfter(before: seq<Value>, runId: Text, op: Op): seq<Value> {
    match op
    case Log(call, id, time) => WithGenesis(before, runId, id, time) + [EventOf(call)]
    case OpenOnly(id, time) => WithGenesis(before, runId, id, time)
    case Restart(_) => before
  }

  lemma ApplyStands(h: Hash, s: Session, events: seq<Value>, op: Op)
    requires IsDigest(h) && StandsAfter(h, s, events) && (op.Log? ==> ValidCall(op.call))
    ensures StandsAfter(h, Apply(h, s, op), EventsAfter(events, s.runId, op))
    ensures Apply(h, s, op).runId == if op.Restart? then op.runId else s.runId
  {
    match op
    case Log(call, id, time) =>
      OpenStands(h, s, events, id, time);
      CallIsEvent(call);
      AppendStands(h, Open(h, s, id, time), WithGenesis(events, s.runId, id, time), EventOf(call));
    case OpenOnly(id, time) => OpenStands(h, s, events, id, time);
    case Restart(_) =>
  }

  lemma LastOperation(h: Hash, runId: Text, ops: seq<Op>, n: nat, before: seq<Op>)
    requires |ops| == n + 1 && before == ops[..n]
    ensures Run(h, NewSession([], runId), ops) == Apply(h, Run(h, NewSession([], runId), before), ops[n])
    ensures EventsOf(runId, ops) == EventsAfter(EventsOf(runId, before), RunIdAfter(runId, before), ops[n])
    ensures RunIdAfter(runId, ops) == if ops[n].Restart? then ops[n].runId else RunIdAfter(runId, before)
  {
  }

  /**
   * Whatever is logged, and wherever the process restarts between two writes, the
   * file is the chained file of the genesis event and the logged events.
   */
  lemma {:induction false} RunStands(h: Hash, runId: Text, ops: seq<Op>)
    requires IsDigest(h) && ValidOps(ops)
    ensures StandsAfter(h, Run(h, NewSession([], runId), ops), EventsOf(runId, ops))
    ensures Run(h, NewSession([], runId), ops).runId == RunIdAfter(runId, ops)
  {
    if ops != [] {
      var n := |ops| - 1;
      var before := ops[..n];
      var s, events := Run(h, NewSession([], runId), before), EventsOf(runId, before);
      RunStands(h, runId, before);
      LastOperation(h, runId, ops, n, before);
      ApplyStands(h, s, events, ops[n]);
    }
  }

  function LogCount(ops: seq<Op>): nat {
    if ops == [] then 0 else LogCount(ops[..|ops| - 1]) + if ops[|ops| - 1].Log? then 1 else 0
  }

  lemma {:induction false} EventCount(runId: Text, ops: seq<Op>)
    ensures |EventsOf(runId, ops)| == LogCount(ops) + if EventsOf(runId, ops) == [] then 0 else 1
  {
    if ops != [] {
      EventCount(runId, ops[..|ops| - 1]);
    }
  }

  /**
   * The verifier accepts the file of every run as a hashed ledger, with one event
   * per call and one genesis event.
   */
  lemma {:induction false} RunVerifies(h: Hash, runId: Text, ops: seq<Op>)
    requires IsDigest(h) && ValidOps(ops)
    ensures AllChained(h, Lines(Run(h, NewSession([], runId), ops).content))
    ensures |Lines(Run(h, NewSession([], runId), ops).content)|
         == LogCount(ops) + if EventsOf(runId, ops) == [] then 0 else 1
    ensures EventsOf(runId, ops) == [] ==> LogCount(ops) == 0
  {
    RunStands(h, runId, ops);
    EventCount(runId, ops);
    var events := EventsOf(runId, ops);
    LinesOfContent(h, events);
    forall i | 0 <= i < |events| ensures VerdictAt(h, Lines(ContentOf(h, events)), i).Chained? {
      ContentChains(h, events, i);
    }
  }
}
