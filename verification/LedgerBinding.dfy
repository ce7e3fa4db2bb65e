/** What the last hash of an accepted ledger says about its events. */
module LedgerBinding {
  import opened Wrappers
  import opened Json
  import opened Canonical
  import opened Ledger
  import opened LedgerChain

  // ---- Parsed values are well-formed ----

  lemma {:induction false} PutKeys(members: seq<Entry<Value>>, m: Entry<Value>)
    requires DistinctKeys(members) && WellFormed(m.value)
    requires forall i :: 0 <= i < |members| ==> WellFormed(members[i].value)
    ensures DistinctKeys(Put(members, m))
    ensures forall i :: 0 <= i < |Put(members, m)| ==> WellFormed(Put(members, m)[i].value)
    ensures forall i :: 0 <= i < |Put(members, m)| ==>
              || Put(members, m)[i].key == m.key
              || exists j :: 0 <= j < |members| && members[j].key == Put(members, m)[i].key
  {
    if members != [] && members[0].key != m.key {
      PutKeys(members[1..], m);
      var rest := Put(members[1..], m);
      forall i | 0 <= i < |rest|
        ensures rest[i].key != members[0].key
        ensures rest[i].key == m.key || exists j :: 0 <= j < |members| && members[j].key == rest[i].key
      {
        if rest[i].key != m.key {
          var j :| 0 <= j < |members[1..]| && members[1..][j].key == rest[i].key;
          assert members[j + 1].key == rest[i].key;
        }
      }
    }
  }

  lemma {:induction false} ParsedIsWellFormed(t: Text)
    ensures ParseValue(t).Parsed? ==> WellFormed(ParseValue(t).value)
    decreases |t|, 0
  {
    var u := Skip(t);
    if u != [] && ParseValue(t).Parsed? {
      if u[0] == 91 {
        ItemsAreWellFormed(u[1..]);
      } else if u[0] == 123 {
        MembersAreWellFormed(u[1..], []);
      }
    }
  }

  lemma {:induction false} ItemsAreWellFormed(t: Text)
    ensures ParseItems(t).Parsed? ==> forall i :: 0 <= i < |ParseItems(t).value| ==> WellFormed(ParseItems(t).value[i])
    decreases |t|, 1
  {
    ParsedIsWellFormed(t);
    match ParseValue(t)
    case Bad =>
    case Parsed(v, rest) =>
      var u := Skip(rest);
      if u != [] && u[0] == COMMA {
        ItemsAreWellFormed(u[1..]);
      }
  }

  lemma {:induction false} MembersAreWellFormed(t0: Text, before: seq<Entry<Value>>)
    requires WellFormed(Obj(before))
    ensures ParseMembers(t0, before).Parsed? ==> WellFormed(Obj(ParseMembers(t0, before).value))
    decreases |t0|, 1
  {
    var t := Skip(t0);
    if t != [] && t[0] == QUOTE && ParseChars(t[1..]).Parsed? {
      var c := Skip(ParseChars(t[1..]).rest);
      if c != [] && c[0] == COLON {
        ParsedIsWellFormed(c[1..]);
        match ParseValue(c[1..])
        case Bad =>
        case Parsed(v, rest) =>
          var m := Entry(ParseChars(t[1..]).value, v);
          PutKeys(before, m);
          var u := Skip(rest);
          if u != [] && u[0] == COMMA {
            MembersAreWellFormed(u[1..], Put(before, m));
          }
      }
    }
  }

  lemma {:induction false} WithoutSealKeys(members: seq<Entry<Value>>)
    requires WellFormed(Obj(members))
    ensures WellFormed(Obj(WithoutSeal(members)))
    ensures forall i :: 0 <= i < |WithoutSeal(members)| ==>
              exists j :: 0 <= j < |members| && members[j] == WithoutSeal(members)[i]
  {
    if members != [] {
      assert WellFormed(Obj(members[1..])) by {
        assert forall i :: 0 <= i < |members[1..]| ==> members[1..][i] == members[i + 1];
      }
      WithoutSealKeys(members[1..]);
      var rest := WithoutSeal(members[1..]);
      forall i | 0 <= i < |rest| ensures exists j :: 1 <= j < |members| && members[j] == rest[i] {
        var j :| 0 <= j < |members[1..]| && members[1..][j] == rest[i];
        assert members[j + 1] == rest[i];
      }
    }
  }

  // ---- The hash inputs of a file ----

  /** The event of a line without its seal; an empty object where there is none. */
  function StoredEvent(line: Text): Value {
    match Parse(line)
    case ParseError => Obj([])
    case ParseOk(v) => if v.Obj? then Obj(WithoutSeal(v.members)) else Obj([])
  }

  function HashInput(h: Hash, lines: seq<Text>, i: nat): Text
    requires i < |lines|
  {
    ChainAt(h, lines, i) + Canonicalize(StoredEvent(lines[i]))
  }

  ghost predicate IsHashInput(h: Hash, lines: seq<Text>, x: Text) {
    exists i :: 0 <= i < |lines| && x == HashInput(h, lines, i)
  }

  lemma StoredEventIsWellFormed(line: Text)
    ensures StoredEvent(line).Obj? && WellFormed(StoredEvent(line))
  {
    ParsedIsWellFormed(line);
    match Parse(line)
    case ParseError =>
    case ParseOk(v) =>
      if v.Obj? {
        WithoutSealKeys(v.members);
      }
  }

  lemma ChainedHash(h: Hash, line: Text, prev: Text)
    requires Judge(h, line, prev).Chained?
    ensures Judge(h, line, prev).hash == h(prev + Canonicalize(StoredEvent(line)))
    ensures h(prev + Canonicalize(StoredEvent(line))) != [] ==>
              HashOfLine(line, []) == h(prev + Canonicalize(StoredEvent(line)))
  {
  }

  lemma ChainStep(h: Hash, lines: seq<Text>, n: nat)
    requires 0 < n <= |lines| && VerdictAt(h, lines, n - 1).Chained?
    ensures ChainAt(h, lines, n) == h(HashInput(h, lines, n - 1))
  {
    ChainedHash(h, lines[n - 1], ChainAt(h, lines, n - 1));
  }

  lemma {:induction false} ChainLength(h: Hash, lines: seq<Text>, n: nat)
    requires IsDigest(h) && AllChained(h, lines) && n <= |lines|
    ensures |ChainAt(h, lines, n)| == 64
  {
    if n > 0 {
      ChainStep(h, lines, n);
    }
  }

  // ---- The last hash binds the events ----

  datatype Binding =
    | SameEvents
    | Collision(x: Text, y: Text)   // two different hash inputs with one hash
    | ZeroDigest(x: Text)           // a hash input whose hash is the genesis constant

  /** The lines hold the same event, up to the order of keys. */
  ghost predicate SameEvent(line: Text, other: Text) {
    Meaning(StoredEvent(line)) == Meaning(StoredEvent(other))
  }

  /** What equal last hashes of two files amount to. */
  ghost predicate Binds(h: Hash, a: seq<Text>, b: seq<Text>, r: Binding) {
    match r
    case SameEvents => |a| == |b| && forall i :: 0 <= i < |a| ==> SameEvent(a[i], b[i])
    case Collision(x, y) => IsHashInput(h, a, x) && IsHashInput(h, b, y) && x != y && h(x) == h(y)
    case ZeroDigest(x) => (IsHashInput(h, a, x) || IsHashInput(h, b, x)) && h(x) == GENESIS_PREV_HASH
  }

  lemma SplitInput(p: Text, c: Text, q: Text, d: Text)
    requires |p| == |q| && p + c == q + d
    ensures p == q && c == d
  {
    assert (p + c)[..|p|] == p && (q + d)[..|q|] == q;
    assert (p + c)[|p|..] == c && (q + d)[|q|..] == d;
  }

  lemma InputsAgree(p: Text, line: Text, q: Text, other: Text)
    requires |p| == |q| && p + Canonicalize(StoredEvent(line)) == q + Canonicalize(StoredEvent(other))
    ensures p == q && SameEvent(line, other)
  {
    var e, f := StoredEvent(line), StoredEvent(other);
    StoredEventIsWellFormed(line);
    StoredEventIsWellFormed(other);
    SplitInput(p, Canonicalize(e), q, Canonicalize(f));
    CanonicalTextIsMeaning(e, f);
  }

  /** Each input of a chain starts with the value before it and is hashed to the value after it. */
  ghost predicate IsChain(h: Hash, c: seq<Text>, x: seq<Text>) {
    && |c| == |x| + 1 && c[0] == GENESIS_PREV_HASH
    && forall i, j :: 0 <= i < |x| && j == i + 1 ==> c[j] == h(x[i]) && c[i] <= x[i] && |c[i]| == 64
  }

  datatype Divergence =
    | Never
    | Differ(i: nat, j: nat)
    | Zero(i: nat)
    | OtherZero(j: nat)

  ghost predicate Explains(h: Hash, x: seq<Text>, y: seq<Text>, n: nat, m: nat, r: Divergence) {
    match r
    case Never => n == m && n <= |x| && n <= |y| && x[..n] == y[..n]
    case Differ(i, j) => i < |x| && j < |y| && x[i] != y[j] && h(x[i]) == h(y[j])
    case Zero(i) => i < |x| && h(x[i]) == GENESIS_PREV_HASH
    case OtherZero(j) => j < |y| && h(y[j]) == GENESIS_PREV_HASH
  }

  lemma SamePrefix(x: seq<Text>, y: seq<Text>, n: nat)
    requires n < |x| && n < |y| && x[..n] == y[..n] && x[n] == y[n]
    ensures x[..n + 1] == y[..n + 1]
  {
    assert x[..n + 1] == x[..n] + [x[n]] && y[..n + 1] == y[..n] + [y[n]];
  }

  /** Two chains that meet have the same inputs all the way back, or there is a reason why not. */
  lemma {:induction false} ChainsThatMeet(h: Hash, c: seq<Text>, x: seq<Text>, d: seq<Text>, y: seq<Text>,
                                          n: nat, m: nat)
    returns (r: Divergence)
    requires IsChain(h, c, x) && IsChain(h, d, y) && n <= |x| && m <= |y| && c[n] == d[m]
    ensures Explains(h, x, y, n, m, r)
    decreases n
  {
    if n == 0 && m == 0 {
      r := Never;
    } else if n == 0 {
      assert d[m] == h(y[m - 1]);
      r := OtherZero(m - 1);
    } else if m == 0 {
      assert c[n] == h(x[n - 1]);
      r := Zero(n - 1);
    } else {
      assert c[n] == h(x[n - 1]) && d[m] == h(y[m - 1]);
      if x[n - 1] != y[m - 1] {
        r := Differ(n - 1, m - 1);
      } else {
        assert c[n - 1] == d[m - 1] by { assert c[n - 1] == x[n - 1][..64] && d[m - 1] == y[m - 1][..64]; }
        r := ChainsThatMeet(h, c, x, d, y, n - 1, m - 1);
        if r.Never? {
          SamePrefix(x, y, n - 1);
        }
      }
    }
  }

  ghost function Chain(h: Hash, lines: seq<Text>): (c: seq<Text>)
    ensures |c| == |lines| + 1 && forall i :: 0 <= i <= |lines| ==> c[i] == ChainAt(h, lines, i)
  {
    seq(|lines| + 1, i requires 0 <= i <= |lines| => ChainAt(h, lines, i))
  }

  ghost function Inputs(h: Hash, lines: seq<Text>): (x: seq<Text>)
    ensures |x| == |lines| && forall i :: 0 <= i < |lines| ==> x[i] == HashInput(h, lines, i)
  {
    seq(|lines|, i requires 0 <= i < |lines| => HashInput(h, lines, i))
  }

  lemma VerifiedStep(h: Hash, lines: seq<Text>, i: nat)
    requires IsDigest(h) && AllChained(h, lines) && i < |lines|
    ensures ChainAt(h, lines, i + 1) == h(HashInput(h, lines, i))
    ensures ChainAt(h, lines, i) <= HashInput(h, lines, i) && |ChainAt(h, lines, i)| == 64
  {
    assert VerdictAt(h, lines, i).Chained?;
    ChainStep(h, lines, i + 1);
    ChainLength(h, lines, i);
  }

  lemma VerifiedIsChain(h: Hash, lines: seq<Text>)
    requires IsDigest(h) && AllChained(h, lines)
    ensures IsChain(h, Chain(h, lines), Inputs(h, lines))
  {
    var c, x := Chain(h, lines), Inputs(h, lines);
    assert c[0] == ChainAt(h, lines, 0);
    forall i, j | 0 <= i < |x| && j == i + 1 ensures c[j] == h(x[i]) && c[i] <= x[i] && |c[i]| == 64 {
      VerifiedStep(h, lines, i);
    }
  }

  lemma SameInputsSameEvents(h: Hash, a: seq<Text>, b: seq<Text>, i: nat)
    requires IsDigest(h) && AllChained(h, a) && AllChained(h, b) && i < |a| && i < |b|
    requires HashInput(h, a, i) == HashInput(h, b, i)
    ensures SameEvent(a[i], b[i])
  {
    ChainLength(h, a, i);
    ChainLength(h, b, i);
    InputsAgree(ChainAt(h, a, i), a[i], ChainAt(h, b, i), b[i]);
  }

  lemma EqualHashesBind(h: Hash, a: seq<Text>, b: seq<Text>) returns (r: Binding)
    requires IsDigest(h) && AllChained(h, a) && AllChained(h, b)
    requires ChainAt(h, a, |a|) == ChainAt(h, b, |b|)
    ensures Binds(h, a, b, r)
  {
    VerifiedIsChain(h, a);
    VerifiedIsChain(h, b);
    var x, y := Inputs(h, a), Inputs(h, b);
    var why := ChainsThatMeet(h, Chain(h, a), x, Chain(h, b), y, |a|, |b|);
    match why
    case Never =>
      r := SameEvents;
      forall i | 0 <= i < |a| ensures SameEvent(a[i], b[i]) {
        assert x[..|a|][i] == y[..|a|][i];
        SameInputsSameEvents(h, a, b, i);
      }
    case Differ(i, j) => r := Collision(x[i], y[j]);
    case Zero(i) => r := ZeroDigest(x[i]);
    case OtherZero(j) => r := ZeroDigest(y[j]);
  }

  /** The hash a reader finds on the last line is where the verified chain ends. */
  lemma LastLineHoldsChain(h: Hash, lines: seq<Text>)
    requires IsDigest(h) && AllChained(h, lines)
    ensures LastLineHash(lines, GENESIS_PREV_HASH) == ChainAt(h, lines, |lines|)
  {
    if lines != [] {
      var n := |lines|;
      var hash := ChainAt(h, lines, n);
      ChainLength(h, lines, n);
      ChainStep(h, lines, n);
      assert VerdictAt(h, lines, n - 1).Chained?;
      ChainedHash(h, lines[n - 1], ChainAt(h, lines, n - 1));
    }
  }

  /**
   * Two files the verifier accepts as hashed and whose last lines hold the same
   * hash either have the same number of events, pairwise equal up to key order,
   * or exhibit two inputs with one hash, or an input hashed to the genesis
   * constant.
   */
  lemma {:induction false} LastHashBindsEvents(h: Hash, contentA: Text, contentB: Text) returns (r: Binding)
    requires IsDigest(h) && AllChained(h, Lines(contentA)) && AllChained(h, Lines(contentB))
    requires LoadLastHash(contentA, GENESIS_PREV_HASH) == LoadLastHash(contentB, GENESIS_PREV_HASH)
    ensures Binds(h, Lines(contentA), Lines(contentB), r)
  {
    LastLineHoldsChain(h, Lines(contentA));
    LastLineHoldsChain(h, Lines(contentB));
    r := EqualHashesBind(h, Lines(contentA), Lines(contentB));
  }
}
