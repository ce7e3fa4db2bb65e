/**
 * The ledger's verifier, and what its answers mean: in terms of what the lines
 * parse to, of their `prev_hash` and `hash` properties and of the hash function.
 */
module LedgerVerifier {
  import opened Wrappers
  import opened Json
  import opened Canonical
  import opened Ledger
  import opened LedgerBinding

  // ---- What a line says ----

  /** A property of the value a line parses to. */
  function Stored(line: Text, key: Text): Value {
    match Parse(line)
    case ParseError => Undefined
    case ParseOk(v) => Field(v, key)
  }

  ghost predicate IsReadable(line: Text) {
    Parse(line).ParseOk? && !Parse(line).value.Null?
  }

  ghost predicate IsLegacyLine(line: Text) {
    IsReadable(line) && Stored(line, PREV_HASH) == Undefined && Stored(line, HASH) == Undefined
  }

  /** All members but the two of the seal. */
  ghost predicate IsRestOf(rest: seq<Entry<Value>>, members: seq<Entry<Value>>) {
    && DistinctKeys(rest)
    && forall e :: e in rest <==> e in members && e.key != PREV_HASH && e.key != HASH
  }

  /** The rest of the object, with `prev` before it, is hashed to this. */
  ghost predicate RestHashesTo(h: Hash, members: seq<Entry<Value>>, prev: Text, hash: Value) {
    exists rest :: IsRestOf(rest, members) && hash == Str(h(prev + Canonicalize(Obj(rest))))
  }

  /** The line is an object that names `prev` and the hash of `prev` with the rest of it. */
  ghost predicate IsSealedAfter(h: Hash, line: Text, prev: Text) {
    && Parse(line).ParseOk? && Parse(line).value.Obj?
    && Stored(line, PREV_HASH) == Str(prev)
    && RestHashesTo(h, Parse(line).value.members, prev, Stored(line, HASH))
  }

  /** The hash on the last earlier line that has one, and 64 zeros if none has. */
  function HashBefore(lines: seq<Text>, i: nat): Value
    requires i <= |lines|
  {
    if i == 0 then Str(Zeros(64))
    else if Stored(lines[i - 1], HASH) != Undefined then Stored(lines[i - 1], HASH)
    else HashBefore(lines, i - 1)
  }

  ghost predicate IsHashedAt(h: Hash, lines: seq<Text>, i: nat)
    requires i < |lines|
  {
    exists prev: Text :: HashBefore(lines, i) == Str(prev) && IsSealedAfter(h, lines[i], prev)
  }

  // ---- What a file is ----

  /** What the `prev_hash` of line `i` has to be: 64 zeros, or the hash on the line before. */
  ghost predicate IsPrevOf(lines: seq<Text>, i: nat, prev: Text)
    requires i < |lines|
  {
    if i == 0 then |prev| == 64 && forall k :: 0 <= k < 64 ==> prev[k] == 48
    else Stored(lines[i - 1], HASH) == Str(prev)
  }

  ghost predicate FollowsAt(h: Hash, lines: seq<Text>, i: nat)
    requires i < |lines|
  {
    exists prev: Text :: IsPrevOf(lines, i, prev) && IsSealedAfter(h, lines[i], prev)
  }

  ghost predicate IsHashedFile(h: Hash, lines: seq<Text>) {
    forall i :: 0 <= i < |lines| ==> FollowsAt(h, lines, i)
  }

  ghost predicate IsLegacyFile(lines: seq<Text>) {
    forall i :: 0 <= i < |lines| ==> IsLegacyLine(lines[i])
  }

  /** Each line before `n` is legacy, or hashed and in its place. */
  ghost predicate IsFineUpTo(h: Hash, lines: seq<Text>, n: nat)
    requires n <= |lines|
  {
    forall i :: 0 <= i < n ==> IsLegacyLine(lines[i]) || IsHashedAt(h, lines, i)
  }

  /** What is wrong with a line. */
  ghost predicate IsFault(h: Hash, lines: seq<Text>, i: nat, reason: Reason)
    requires i < |lines|
  {
    var prev, hash := Stored(lines[i], PREV_HASH), Stored(lines[i], HASH);
    match reason
    case InvalidJson => Parse(lines[i]) == ParseError
    case MissingHash => IsReadable(lines[i]) && (prev == Undefined <==> hash != Undefined)
    case PrevHashMismatch => prev != Undefined && hash != Undefined && prev != HashBefore(lines, i)
    case HashMismatch =>
      && hash != Undefined && prev == HashBefore(lines, i) && prev.Str?
      && !RestHashesTo(h, Parse(lines[i]).value.members, prev.s, hash)
  }

  /** The answers of the verifier. */
  ghost predicate IsAnswer(h: Hash, lines: seq<Text>, r: VerifyResult) {
    match r
    case Verified(legacy, events) =>
      events == |lines| && if legacy then lines != [] && IsLegacyFile(lines) else IsHashedFile(h, lines)
    case Broken(i, reason) => i < |lines| && IsFineUpTo(h, lines, i) && IsFault(h, lines, i, reason)
    case Mixed =>
      && IsFineUpTo(h, lines, |lines|)
      && (exists i :: 0 <= i < |lines| && IsLegacyLine(lines[i]))
      && (exists i :: 0 <= i < |lines| && IsHashedAt(h, lines, i))
    case VerifyThrows =>
      exists i :: 0 <= i < |lines| && IsFineUpTo(h, lines, i) && Parse(lines[i]) == ParseOk(Null)
    case Unreadable => false
  }

  // ---- From the verdicts to what they mean ----

  lemma {:induction false} WithoutSealIsRest(members: seq<Entry<Value>>)
    requires WellFormed(Obj(members))
    ensures IsRestOf(WithoutSeal(members), members) && WellFormed(Obj(WithoutSeal(members)))
  {
    WithoutSealKeys(members);
    forall e ensures e in WithoutSeal(members) <==> e in members && e.key != PREV_HASH && e.key != HASH {
      WithoutSealHas(members, e);
    }
  }

  lemma {:induction false} WithoutSealHas(members: seq<Entry<Value>>, e: Entry<Value>)
    ensures e in WithoutSeal(members) <==> e in members && e.key != PREV_HASH && e.key != HASH
  {
    if members != [] {
      WithoutSealHas(members[1..], e);
      assert e in members <==> e == members[0] || e in members[1..];
    }
  }

  lemma MeaningIsShared(a: seq<Entry<Value>>, b: seq<Entry<Value>>, i: nat, key: Text, t: Tree)
    requires MeansAt(a, i, key, t) && forall e :: e in a ==> e in b
    ensures exists j :: MeansAt(b, j, key, t)
  {
    assert a[i] in b;
    var j :| 0 <= j < |b| && b[j] == a[i];
    assert MeansAt(b, j, key, t);
  }

  /** The order of the members does not matter for the canonical text. */
  lemma SameEntriesSameText(a: seq<Entry<Value>>, b: seq<Entry<Value>>)
    requires WellFormed(Obj(a)) && WellFormed(Obj(b)) && forall e :: e in a <==> e in b
    ensures Canonicalize(Obj(a)) == Canonicalize(Obj(b))
  {
    forall key, t ensures Maps(MeaningMembers(a), key, t) <==> Maps(MeaningMembers(b), key, t) {
      MeaningFrom(a, key, t);
      MeaningFrom(b, key, t);
      if i: nat :| MeansAt(a, i, key, t) { MeaningIsShared(a, b, i, key, t); }
      if i: nat :| MeansAt(b, i, key, t) { MeaningIsShared(b, a, i, key, t); }
    }
    SameMap(MeaningMembers(a), MeaningMembers(b));
    CanonicalTextIsMeaning(Obj(a), Obj(b));
  }

  lemma RestIsWellFormed(rest: seq<Entry<Value>>, members: seq<Entry<Value>>)
    requires IsRestOf(rest, members) && WellFormed(Obj(members))
    ensures WellFormed(Obj(rest))
  {
    forall i | 0 <= i < |rest| ensures WellFormed(rest[i].value) {
      assert rest[i] in rest;
      var j :| 0 <= j < |members| && members[j] == rest[i];
    }
  }

  /** The verifier's own way of taking the rest is one of them, and all have one hash. */
  lemma RestHash(h: Hash, members: seq<Entry<Value>>, prev: Text, hash: Value)
    requires WellFormed(Obj(members))
    ensures RestHashesTo(h, members, prev, hash) <==> hash == Str(HashEvent(h, prev, Obj(WithoutSeal(members))))
  {
    var own := WithoutSeal(members);
    WithoutSealIsRest(members);
    if rest :| IsRestOf(rest, members) && hash == Str(h(prev + Canonicalize(Obj(rest)))) {
      RestIsWellFormed(rest, members);
      SameEntriesSameText(rest, own);
    }
    if hash == Str(HashEvent(h, prev, Obj(own))) {
      assert IsRestOf(own, members);
    }
  }

  /** What each verdict on one line means. */
  lemma VerdictMeans(h: Hash, line: Text, prev: Text)
    ensures var v := Judge(h, line, prev);
            && (v.Legacy? <==> IsLegacyLine(line))
            && (v.Chained? <==> IsSealedAfter(h, line, prev))
            && (v.Chained? ==> Stored(line, HASH) == Str(v.hash))
            && (v.Thrown? <==> Parse(line) == ParseOk(Null))
  {
    if Parse(line).ParseOk? && Parse(line).value.Obj? {
      ParsedIsWellFormed(line);
      RestHash(h, Parse(line).value.members, prev, Stored(line, HASH));
    }
  }

  lemma RejectionMeans(h: Hash, lines: seq<Text>, i: nat, prev: Text, reason: Reason)
    requires i < |lines| && HashBefore(lines, i) == Str(prev) && Judge(h, lines[i], prev) == Rejected(reason)
    ensures IsFault(h, lines, i, reason)
  {
    if Parse(lines[i]).ParseOk? && Parse(lines[i]).value.Obj? {
      ParsedIsWellFormed(lines[i]);
      RestHash(h, Parse(lines[i]).value.members, prev, Stored(lines[i], HASH));
    }
  }

  /** Along accepted lines the verifier holds the last hash it has met. */
  lemma {:induction false} ChainIsHashBefore(h: Hash, lines: seq<Text>, n: nat)
    requires n <= |lines| && AcceptedUpTo(h, lines, n)
    ensures HashBefore(lines, n) == Str(ChainAt(h, lines, n))
  {
    if n > 0 {
      var m := n - 1;
      AcceptedLast(h, lines, m);
      ChainIsHashBefore(h, lines, m);
      NextHashBefore(h, lines, m);
      assert m + 1 == n;
    }
  }

  lemma NextHashBefore(h: Hash, lines: seq<Text>, m: nat)
    requires m < |lines| && HashBefore(lines, m) == Str(ChainAt(h, lines, m))
    requires VerdictAt(h, lines, m).Legacy? || VerdictAt(h, lines, m).Chained?
    ensures HashBefore(lines, m + 1) == Str(ChainAt(h, lines, m + 1))
  {
    VerdictMeans(h, lines[m], ChainAt(h, lines, m));
  }

  lemma VerdictAtMeans(h: Hash, lines: seq<Text>, i: nat)
    requires i < |lines| && AcceptedUpTo(h, lines, i)
    ensures VerdictAt(h, lines, i).Legacy? <==> IsLegacyLine(lines[i])
    ensures VerdictAt(h, lines, i).Chained? <==> IsHashedAt(h, lines, i)
  {
    ChainIsHashBefore(h, lines, i);
    VerdictMeans(h, lines[i], ChainAt(h, lines, i));
  }

  lemma {:induction false} AcceptedIsFine(h: Hash, lines: seq<Text>, n: nat)
    requires n <= |lines|
    ensures AcceptedUpTo(h, lines, n) <==> IsFineUpTo(h, lines, n)
  {
    if n > 0 {
      var m := n - 1;
      AcceptedIsFine(h, lines, m);
      AcceptedLast(h, lines, m);
      FineLast(h, lines, m);
      if AcceptedUpTo(h, lines, m) {
        VerdictAtMeans(h, lines, m);
      }
      assert m + 1 == n;
    }
  }

  lemma AcceptedLast(h: Hash, lines: seq<Text>, m: nat)
    requires m < |lines|
    ensures AcceptedUpTo(h, lines, m + 1) <==>
              AcceptedUpTo(h, lines, m) && (VerdictAt(h, lines, m).Legacy? || VerdictAt(h, lines, m).Chained?)
  {
  }

  lemma FineLast(h: Hash, lines: seq<Text>, m: nat)
    requires m < |lines|
    ensures IsFineUpTo(h, lines, m + 1) <==>
              IsFineUpTo(h, lines, m) && (IsLegacyLine(lines[m]) || IsHashedAt(h, lines, m))
  {
  }

  lemma ZerosAreZeros(prev: Text)
    ensures prev == Zeros(64) <==> |prev| == 64 && forall k :: 0 <= k < 64 ==> prev[k] == 48
  {
  }

  /** After a line with a hash, the hash before is the one on that line. */
  lemma PrevIsHashBefore(h: Hash, lines: seq<Text>, i: nat, prev: Text)
    requires i < |lines| && (i > 0 ==> Stored(lines[i - 1], HASH) != Undefined)
    ensures IsPrevOf(lines, i, prev) <==> HashBefore(lines, i) == Str(prev)
  {
    ZerosAreZeros(prev);
  }

  ghost predicate ChainedUpTo(h: Hash, lines: seq<Text>, n: nat)
    requires n <= |lines|
  {
    forall i :: 0 <= i < n ==> VerdictAt(h, lines, i).Chained?
  }

  ghost predicate FollowUpTo(h: Hash, lines: seq<Text>, n: nat)
    requires n <= |lines|
  {
    forall i :: 0 <= i < n ==> FollowsAt(h, lines, i)
  }

  lemma ChainedLast(h: Hash, lines: seq<Text>, m: nat)
    requires m < |lines|
    ensures ChainedUpTo(h, lines, m + 1) <==> ChainedUpTo(h, lines, m) && VerdictAt(h, lines, m).Chained?
  {
  }

  lemma ChainedIsAccepted(h: Hash, lines: seq<Text>, m: nat)
    requires m <= |lines| && ChainedUpTo(h, lines, m)
    ensures AcceptedUpTo(h, lines, m)
  {
  }

  lemma FollowLast(h: Hash, lines: seq<Text>, m: nat)
    requires m < |lines|
    ensures FollowUpTo(h, lines, m + 1) <==> FollowUpTo(h, lines, m) && FollowsAt(h, lines, m)
  {
  }

  lemma {:induction false} ChainedIsFollowing(h: Hash, lines: seq<Text>, n: nat)
    requires n <= |lines|
    ensures ChainedUpTo(h, lines, n) <==> FollowUpTo(h, lines, n)
  {
    if n > 0 {
      var m := n - 1;
      ChainedIsFollowing(h, lines, m);
      ChainedLast(h, lines, m);
      FollowLast(h, lines, m);
      if ChainedUpTo(h, lines, m) {
        ChainedIsAccepted(h, lines, m);
        ChainedHasHash(h, lines, m);
        FollowsIffHashed(h, lines, m);
        VerdictAtMeans(h, lines, m);
      }
      assert m + 1 == n;
    }
  }

  lemma ChainedHasHash(h: Hash, lines: seq<Text>, m: nat)
    requires m < |lines| && ChainedUpTo(h, lines, m)
    ensures m > 0 ==> Stored(lines[m - 1], HASH) != Undefined
  {
    if m > 0 {
      var l := m - 1;
      assert VerdictAt(h, lines, l).Chained?;
      VerdictMeans(h, lines[l], ChainAt(h, lines, l));
    }
  }

  lemma FollowsIffHashed(h: Hash, lines: seq<Text>, m: nat)
    requires m < |lines| && (m > 0 ==> Stored(lines[m - 1], HASH) != Undefined)
    ensures FollowsAt(h, lines, m) <==> IsHashedAt(h, lines, m)
  {
    forall prev: Text ensures IsPrevOf(lines, m, prev) <==> HashBefore(lines, m) == Str(prev) {
      PrevIsHashBefore(h, lines, m, prev);
    }
  }

  /** The files all of whose lines are chained, and those all of whose lines are legacy. */
  lemma AcceptedFiles(h: Hash, lines: seq<Text>)
    ensures AllChained(h, lines) <==> IsHashedFile(h, lines)
    ensures AllLegacy(h, lines) <==> IsLegacyFile(lines)
  {
    ChainedIsFollowing(h, lines, |lines|);
    forall i | 0 <= i < |lines| ensures VerdictAt(h, lines, i).Legacy? <==> IsLegacyLine(lines[i]) {
      VerdictMeans(h, lines[i], ChainAt(h, lines, i));
    }
  }

  /** No file is accepted in both ways, but for the empty one. */
  lemma HashedIsNotLegacy(h: Hash, lines: seq<Text>)
    requires lines != [] && IsLegacyFile(lines)
    ensures !IsHashedFile(h, lines)
  {
    assert IsLegacyLine(lines[0]);
    assert !FollowsAt(h, lines, 0);
  }

  // ---- The verifier ----

  datatype VerifyResult =
    | Verified(legacy: bool, events: nat)
    | Broken(brokenAt: nat, reason: Reason)
    | Mixed
    | VerifyThrows
    | Unreadable

  ghost predicate Saw(h: Hash, lines: seq<Text>, n: nat, legacy: bool)
    requires n <= |lines|
  {
    exists i :: 0 <= i < n && if legacy then VerdictAt(h, lines, i).Legacy? else VerdictAt(h, lines, i).Chained?
  }

  lemma SawOneMore(h: Hash, lines: seq<Text>, n: nat, legacy: bool)
    requires n < |lines|
    ensures Saw(h, lines, n + 1, legacy) <==>
            || Saw(h, lines, n, legacy)
            || if legacy then VerdictAt(h, lines, n).Legacy? else VerdictAt(h, lines, n).Chained?
  {
  }

  lemma AcceptedOneMore(h: Hash, lines: seq<Text>, n: nat, verdict: Verdict)
    requires n < |lines| && AcceptedUpTo(h, lines, n) && verdict == VerdictAt(h, lines, n)
    ensures verdict.Legacy? ==> AcceptedUpTo(h, lines, n + 1) && ChainAt(h, lines, n + 1) == ChainAt(h, lines, n)
    ensures verdict.Chained? ==> AcceptedUpTo(h, lines, n + 1) && ChainAt(h, lines, n + 1) == verdict.hash
  {
  }

  /** What the loop below knows before line `n`. */
  ghost predicate HasScanned(h: Hash, lines: seq<Text>, n: nat, prev: Text, sawHashed: bool, sawLegacy: bool) {
    && n <= |lines| && prev == ChainAt(h, lines, n) && AcceptedUpTo(h, lines, n)
    && (sawHashed <==> Saw(h, lines, n, false)) && (sawLegacy <==> Saw(h, lines, n, true))
  }

  lemma ScansOneMore(h: Hash, lines: seq<Text>, n: nat, prev: Text, sawHashed: bool, sawLegacy: bool, verdict: Verdict)
    requires n < |lines| && HasScanned(h, lines, n, prev, sawHashed, sawLegacy) && verdict == VerdictAt(h, lines, n)
    ensures verdict.Legacy? ==> HasScanned(h, lines, n + 1, prev, sawHashed, true)
    ensures verdict.Chained? ==> HasScanned(h, lines, n + 1, verdict.hash, true, sawLegacy)
  {
    AcceptedOneMore(h, lines, n, verdict);
    SawOneMore(h, lines, n, true);
    SawOneMore(h, lines, n, false);
  }

  /** The verifier's loop: the lines before `stop` are accepted, and it stops at the first other line. */
  method Scan(h: Hash, lines: seq<Text>) returns (stop: nat, verdict: Verdict, sawHashed: bool, sawLegacy: bool)
    ensures stop <= |lines| && AcceptedUpTo(h, lines, stop)
    ensures stop < |lines| ==> verdict == VerdictAt(h, lines, stop) && (verdict.Rejected? || verdict.Thrown?)
    ensures stop == |lines| ==> (sawHashed <==> Saw(h, lines, stop, false))
    ensures stop == |lines| ==> (sawLegacy <==> Saw(h, lines, stop, true))
  {
    var prevHash := GENESIS_PREV_HASH;
    sawHashed, sawLegacy, verdict, stop := false, false, Thrown, 0;
    while stop < |lines|
      invariant HasScanned(h, lines, stop, prevHash, sawHashed, sawLegacy)
    {
      verdict := Judge(h, lines[stop], prevHash);
      ScansOneMore(h, lines, stop, prevHash, sawHashed, sawLegacy, verdict);
      match verdict {
        case Thrown => return;
        case Rejected(_) => return;
        case Legacy => sawLegacy := true;
        case Chained(hash) => sawHashed := true; prevHash := hash;
      }
      stop := stop + 1;
    }
  }

  lemma StopMeans(h: Hash, lines: seq<Text>, stop: nat)
    requires stop < |lines| && AcceptedUpTo(h, lines, stop)
    requires VerdictAt(h, lines, stop).Rejected? || VerdictAt(h, lines, stop).Thrown?
    ensures IsFineUpTo(h, lines, stop) && !AllChained(h, lines) && !AllLegacy(h, lines)
    ensures match VerdictAt(h, lines, stop)
            case Rejected(reason) => IsFault(h, lines, stop, reason)
            case _ => Parse(lines[stop]) == ParseOk(Null)
  {
    AcceptedIsFine(h, lines, stop);
    ChainIsHashBefore(h, lines, stop);
    VerdictMeans(h, lines[stop], ChainAt(h, lines, stop));
    if VerdictAt(h, lines, stop).Rejected? {
      RejectionMeans(h, lines, stop, ChainAt(h, lines, stop), VerdictAt(h, lines, stop).reason);
    }
  }

  lemma BothMeans(h: Hash, lines: seq<Text>)
    requires AcceptedUpTo(h, lines, |lines|) && Saw(h, lines, |lines|, true) && Saw(h, lines, |lines|, false)
    ensures IsAnswer(h, lines, Mixed) && !AllChained(h, lines) && !AllLegacy(h, lines)
  {
    AcceptedIsFine(h, lines, |lines|);
    var i :| 0 <= i < |lines| && VerdictAt(h, lines, i).Legacy?;
    var j :| 0 <= j < |lines| && VerdictAt(h, lines, j).Chained?;
    VerdictAtMeans(h, lines, i);
    VerdictAtMeans(h, lines, j);
  }

  lemma OneKindMeans(h: Hash, lines: seq<Text>, sawHashed: bool, sawLegacy: bool)
    requires lines != [] && AcceptedUpTo(h, lines, |lines|) && !(sawHashed && sawLegacy)
    requires (sawHashed <==> Saw(h, lines, |lines|, false)) && (sawLegacy <==> Saw(h, lines, |lines|, true))
    ensures sawLegacy <==> AllLegacy(h, lines)
    ensures !sawLegacy <==> AllChained(h, lines)
  {
    ghost var first := VerdictAt(h, lines, 0);
    assert first.Legacy? || first.Chained?;
  }

  /** The verifier on a path; no content is a file that cannot be read. */
  method Verify(h: Hash, content: Option<Text>) returns (r: VerifyResult)
    ensures r.Unreadable? <==> content.None?
    ensures content.Some? ==> IsAnswer(h, Lines(content.value), r)
    ensures r.Verified? <==>
              content.Some? && (IsHashedFile(h, Lines(content.value)) || IsLegacyFile(Lines(content.value)))
  {
    if content.None? {
      return Unreadable;
    }
    r := VerifyContent(h, content.value);
  }

  /**
   * The verifier. It accepts as hashed exactly the files in which every line names
   * the hash before it and its own, and as legacy the non-empty ones in which none
   * does; otherwise it names the first line at fault and what is wrong with it.
   */
  method VerifyContent(h: Hash, content: Text) returns (r: VerifyResult)
    ensures IsAnswer(h, Lines(content), r)
    ensures r.Verified? && !r.legacy <==> IsHashedFile(h, Lines(content))
    ensures r.Verified? && r.legacy <==> Lines(content) != [] && IsLegacyFile(Lines(content))
    ensures r.Verified? && !r.legacy <==> AllChained(h, Lines(content))
  {
    var lines := Lines(content);
    AcceptedFiles(h, lines);
    if |lines| == 0 {
      return Verified(false, 0);
    }
    var stop, verdict, sawHashed, sawLegacy := Scan(h, lines);
    if stop < |lines| {
      StopMeans(h, lines, stop);
      r := if verdict.Rejected? then Broken(stop, verdict.reason) else VerifyThrows;
    } else if sawLegacy && sawHashed {
      BothMeans(h, lines);
      r := Mixed;
    } else {
      OneKindMeans(h, lines, sawHashed, sawLegacy);
      r := Verified(sawLegacy && !sawHashed, |lines|);
    }
  }
}
