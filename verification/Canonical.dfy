/**
 * The ledger's canonical text of a value: like `JSON.stringify`, with the keys
 * of every object in sorted order.
 */
module Canonical {
  import opened Json
  import opened JsonRoundTrip

  // ---- Sorting by key ----

  /** The order of JavaScript's `sort` on strings: by code units. */
  predicate Less(a: Text, b: Text) {
    if b == [] then false
    else if a == [] then true
    else a[0] < b[0] || (a[0] == b[0] && Less(a[1..], b[1..]))
  }

  function Insert<T>(e: Entry<T>, entries: seq<Entry<T>>): seq<Entry<T>> {
    if entries == [] || !Less(entries[0].key, e.key) then [e] + entries
    else [entries[0]] + Insert(e, entries[1..])
  }

  function Sort<T>(entries: seq<Entry<T>>): seq<Entry<T>> {
    if entries == [] then [] else Insert(entries[0], Sort(entries[1..]))
  }

  ghost predicate Sorted<T>(entries: seq<Entry<T>>) {
    forall i, j :: 0 <= i < j < |entries| ==> Less(entries[i].key, entries[j].key)
  }

  lemma {:induction false} LessIsStrict(a: Text, b: Text)
    ensures !(Less(a, b) && Less(b, a)) && (a == b ==> !Less(a, b))
    ensures a != b ==> Less(a, b) || Less(b, a)
  {
    if a != [] && b != [] {
      LessIsStrict(a[1..], b[1..]);
      if a[0] == b[0] {
        assert a == [a[0]] + a[1..] && b == [b[0]] + b[1..];
      }
    }
  }

  lemma {:induction false} LessIsTransitive(a: Text, b: Text, c: Text)
    requires Less(a, b) && Less(b, c)
    ensures Less(a, c)
  {
    if a != [] && a[0] == b[0] && b[0] == c[0] {
      LessIsTransitive(a[1..], b[1..], c[1..]);
    }
  }

  lemma {:induction false} InsertKeeps(e: Entry<Value>, entries: seq<Entry<Value>>)
    requires Sorted(entries) && forall i :: 0 <= i < |entries| ==> entries[i].key != e.key
    ensures Sorted(Insert(e, entries))
    ensures forall x :: x in Insert(e, entries) <==> x == e || x in entries
  {
    if entries != [] {
      var first := entries[0];
      LessIsStrict(first.key, e.key);
      if Less(first.key, e.key) {
        InsertKeeps(e, entries[1..]);
        var rest := Insert(e, entries[1..]);
        forall j | 0 <= j < |rest| ensures Less(first.key, rest[j].key) {
          assert rest[j] in rest;
          if rest[j] != e {
            assert rest[j] in entries[1..];
            var k :| 0 <= k < |entries[1..]| && entries[1..][k] == rest[j];
            assert entries[k + 1] == rest[j];
          }
        }
        assert forall x :: x in entries <==> x == first || x in entries[1..];
      } else {
        forall j | 0 < j < |entries| ensures Less(e.key, entries[j].key) {
          LessIsTransitive(e.key, first.key, entries[j].key);
        }
      }
    }
  }

  lemma {:induction false} SortSorts(entries: seq<Entry<Value>>)
    requires DistinctKeys(entries)
    ensures Sorted(Sort(entries))
    ensures forall x :: x in Sort(entries) <==> x in entries
  {
    if entries != [] {
      var rest := Sort(entries[1..]);
      SortSorts(entries[1..]);
      forall i | 0 <= i < |rest| ensures rest[i].key != entries[0].key {
        assert rest[i] in rest;
        assert rest[i] in entries[1..];
        var j :| 0 <= j < |entries[1..]| && entries[1..][j] == rest[i];
        assert entries[j + 1] == rest[i];
      }
      InsertKeeps(entries[0], rest);
      assert forall x :: x in entries <==> x == entries[0] || x in entries[1..];
    }
  }

  /** There is only one way to list entries in sorted order. */
  lemma {:induction false} SortedIsUnique(a: seq<Entry<Value>>, b: seq<Entry<Value>>)
    requires Sorted(a) && Sorted(b) && forall x :: x in a <==> x in b
    ensures a == b
  {
    if a != [] {
      assert a[0] in b;
      assert b[0] in a;
      SameFirst(a, b);
      forall x ensures x in a[1..] <==> x in b[1..] {
        TailMembers(a, x);
        TailMembers(b, x);
      }
      SortedIsUnique(a[1..], b[1..]);
    } else {
      EmptyTogether(b, a);
    }
  }

  lemma EmptyTogether(a: seq<Entry<Value>>, b: seq<Entry<Value>>)
    requires forall x :: x in a <==> x in b
    ensures a != [] ==> b != []
  {
    if a != [] {
      assert a[0] in b;
    }
  }

  lemma SameFirst(a: seq<Entry<Value>>, b: seq<Entry<Value>>)
    requires Sorted(a) && Sorted(b) && a != [] && b != [] && a[0] in b && b[0] in a
    ensures a[0] == b[0]
  {
    var i :| 0 <= i < |a| && a[i] == b[0];
    var j :| 0 <= j < |b| && b[j] == a[0];
    LessIsStrict(a[0].key, b[0].key);
  }

  lemma TailMembers(a: seq<Entry<Value>>, x: Entry<Value>)
    requires Sorted(a) && a != []
    ensures x in a[1..] <==> x in a && x != a[0]
  {
    LessIsStrict(a[0].key, a[0].key);
    if x in a && x != a[0] {
      var i :| 0 <= i < |a| && a[i] == x;
      assert a[1..][i - 1] == x;
    }
  }

  // ---- canonicalize ----

  /** The ledger's `canonicalize`. */
  function Canonicalize(v: Value): Text
    requires v != Undefined
  {
    match v
    case Arr(items) => ArrayText(CanonicalItems(items))
    case Obj(members) => ObjectText(Sort(CanonicalMembers(members)))
    case _ => Stringify(v)
  }

  function CanonicalItems(items: seq<Value>): seq<Text> {
    if items == [] then []
    else [if items[0] == Undefined then NULL else Canonicalize(items[0])] + CanonicalItems(items[1..])
  }

  function CanonicalMembers(members: seq<Entry<Value>>): seq<Entry<Text>> {
    if members == [] then []
    else if members[0].value == Undefined then CanonicalMembers(members[1..])
    else [Entry(members[0].key, Canonicalize(members[0].value))] + CanonicalMembers(members[1..])
  }

  // ---- What a value means, and two normal forms ----

  datatype Tree =
    | TNull
    | TBool(b: bool)
    | TNum(n: int)
    | TStr(s: Text)
    | TArr(items: seq<Tree>)
    | TObj(members: map<Text, Tree>)

  /**
   * The value up to the order of keys, with `undefined` members dropped and
   * `undefined` items read as `null`.
   */
  function Meaning(v: Value): Tree {
    match v
    case Undefined => TNull
    case Null => TNull
    case Bool(b) => TBool(b)
    case Num(n) => TNum(n)
    case Str(s) => TStr(s)
    case Arr(items) => TArr(MeaningItems(items))
    case Obj(members) => TObj(MeaningMembers(members))
  }

  function MeaningItems(items: seq<Value>): (trees: seq<Tree>)
    ensures |trees| == |items|
  {
    if items == [] then [] else [Meaning(items[0])] + MeaningItems(items[1..])
  }

  function MeaningMembers(members: seq<Entry<Value>>): map<Text, Tree> {
    if members == [] then map[]
    else if members[0].value == Undefined then MeaningMembers(members[1..])
    else MeaningMembers(members[1..])[members[0].key := Meaning(members[0].value)]
  }

  /** The value without `undefined`, its keys in the order given (`sort` false) or sorted. */
  function Normal(v: Value, sort: bool): Value {
    match v
    case Undefined => Null
    case Arr(items) => Arr(NormalItems(items, sort))
    case Obj(members) =>
      var kept := NormalMembers(members, sort);
      Obj(if sort then Sort(kept) else kept)
    case _ => v
  }

  function NormalItems(items: seq<Value>, sort: bool): (r: seq<Value>)
    ensures |r| == |items|
  {
    if items == [] then [] else [Normal(items[0], sort)] + NormalItems(items[1..], sort)
  }

  function NormalMembers(members: seq<Entry<Value>>, sort: bool): seq<Entry<Value>> {
    if members == [] then []
    else if members[0].value == Undefined then NormalMembers(members[1..], sort)
    else [Entry(members[0].key, Normal(members[0].value, sort))] + NormalMembers(members[1..], sort)
  }

  lemma {:induction false} NormalItemAt(items: seq<Value>, sort: bool, i: nat)
    requires i < |items|
    ensures NormalItems(items, sort)[i] == Normal(items[i], sort)
  {
    if i > 0 {
      NormalItemAt(items[1..], sort, i - 1);
    }
  }

  lemma {:induction false} MeaningItemAt(items: seq<Value>, i: nat)
    requires i < |items|
    ensures MeaningItems(items)[i] == Meaning(items[i])
  {
    if i > 0 {
      MeaningItemAt(items[1..], i - 1);
    }
  }

  /** Member `i` is not dropped and becomes the entry `e`. */
  ghost predicate Becomes(members: seq<Entry<Value>>, sort: bool, i: int, e: Entry<Value>) {
    0 <= i < |members| && members[i].value != Undefined && e == Entry(members[i].key, Normal(members[i].value, sort))
  }

  lemma {:induction false} NormalMemberFrom(members: seq<Entry<Value>>, sort: bool, e: Entry<Value>)
    ensures e in NormalMembers(members, sort) <==> exists i :: Becomes(members, sort, i, e)
  {
    if members != [] {
      var tail := members[1..];
      NormalMemberFrom(tail, sort, e);
      if members[0].value != Undefined && e == Entry(members[0].key, Normal(members[0].value, sort)) {
        assert Becomes(members, sort, 0, e);
      }
      if i :| Becomes(tail, sort, i, e) {
        assert Becomes(members, sort, i + 1, e);
      }
      if i :| Becomes(members, sort, i, e) {
        assert i == 0 || Becomes(tail, sort, i - 1, e);
      }
    }
  }

  lemma {:induction false} NormalKeysDistinct(members: seq<Entry<Value>>, sort: bool)
    requires DistinctKeys(members)
    ensures DistinctKeys(NormalMembers(members, sort))
  {
    if members != [] {
      var tail := NormalMembers(members[1..], sort);
      NormalKeysDistinct(members[1..], sort);
      forall j | 0 <= j < |tail| ensures tail[j].key != members[0].key {
        NormalMemberFrom(members[1..], sort, tail[j]);
        var i :| Becomes(members[1..], sort, i, tail[j]);
        assert members[i + 1].key == tail[j].key;
      }
    }
  }

  /** The entries of a normalised object, whatever their order. */
  lemma NormalObject(members: seq<Entry<Value>>, sort: bool)
    requires DistinctKeys(members)
    ensures DistinctKeys(Normal(Obj(members), sort).members)
    ensures forall e :: e in Normal(Obj(members), sort).members <==> e in NormalMembers(members, sort)
  {
    var kept := NormalMembers(members, sort);
    NormalKeysDistinct(members, sort);
    SortSorts(kept);
    var sorted := Sort(kept);
    forall e ensures e in Normal(Obj(members), sort).members <==> e in kept {
      assert e in sorted <==> e in kept;
    }
    forall i, j | 0 <= i < j < |sorted| ensures sorted[i].key != sorted[j].key {
      LessIsStrict(sorted[i].key, sorted[j].key);
    }
  }

  lemma {:induction false} NormalIsDefined(v: Value, sort: bool)
    requires WellFormed(v)
    ensures Defined(Normal(v, sort)) && WellFormed(Normal(v, sort))
    decreases v
  {
    match v
    case Arr(items) =>
      forall i | 0 <= i < |items|
        ensures Defined(Normal(v, sort).items[i]) && WellFormed(Normal(v, sort).items[i])
      {
        NormalIsDefined(items[i], sort);
        NormalItemAt(items, sort, i);
      }
    case Obj(members) =>
      NormalObject(members, sort);
      var normal := Normal(v, sort).members;
      forall j | 0 <= j < |normal| ensures Defined(normal[j].value) && WellFormed(normal[j].value) {
        assert normal[j] in normal;
        NormalMemberFrom(members, sort, normal[j]);
        var i :| Becomes(members, sort, i, normal[j]);
        NormalIsDefined(members[i].value, sort);
      }
    case _ =>
  }

  // ---- Texts of the normal forms ----

  lemma {:induction false} StringifyDrops(v: Value)
    requires v != Undefined
    ensures Normal(v, false) != Undefined && Stringify(v) == Stringify(Normal(v, false))
    decreases v, 1
  {
    match v
    case Arr(items) => ItemsDrop(v, items);
    case Obj(members) => MembersDrop(v, members);
    case _ =>
  }

  lemma {:induction false} ItemsDrop(v: Value, items: seq<Value>)
    requires forall i :: 0 <= i < |items| ==> items[i] < v
    ensures StringifyItems(items) == StringifyItems(NormalItems(items, false))
    decreases v, 0, |items|
  {
    if items != [] {
      ItemsDrop(v, items[1..]);
      assert NormalItems(items, false)[1..] == NormalItems(items[1..], false);
      if items[0] != Undefined {
        StringifyDrops(items[0]);
      }
    }
  }

  lemma {:induction false} MembersDrop(v: Value, members: seq<Entry<Value>>)
    requires forall i :: 0 <= i < |members| ==> members[i].value < v
    ensures StringifyMembers(members) == StringifyMembers(NormalMembers(members, false))
    decreases v, 0, |members|
  {
    if members != [] {
      MembersDrop(v, members[1..]);
      if members[0].value != Undefined {
        StringifyDrops(members[0].value);
        assert NormalMembers(members, false)[1..] == NormalMembers(members[1..], false);
      }
    }
  }

  /** The canonical text is the `JSON.stringify` text of the sorted normal form. */
  lemma {:induction false} CanonicalIsNormalText(v: Value)
    requires v != Undefined
    ensures Normal(v, true) != Undefined && Canonicalize(v) == Stringify(Normal(v, true))
    decreases v, 1
  {
    match v
    case Arr(items) => CanonicalItemsText(v, items);
    case Obj(members) =>
      CanonicalMembersText(v, members);
      SortCommutes(NormalMembers(members, true));
    case _ =>
  }

  lemma {:induction false} CanonicalItemsText(v: Value, items: seq<Value>)
    requires forall i :: 0 <= i < |items| ==> items[i] < v
    ensures CanonicalItems(items) == StringifyItems(NormalItems(items, true))
    decreases v, 0, |items|
  {
    if items != [] {
      CanonicalItemsText(v, items[1..]);
      assert NormalItems(items, true)[1..] == NormalItems(items[1..], true);
      if items[0] != Undefined {
        CanonicalIsNormalText(items[0]);
      }
    }
  }

  lemma {:induction false} CanonicalMembersText(v: Value, members: seq<Entry<Value>>)
    requires forall i :: 0 <= i < |members| ==> members[i].value < v
    ensures CanonicalMembers(members) == StringifyMembers(NormalMembers(members, true))
    ensures forall i :: 0 <= i < |NormalMembers(members, true)| ==> NormalMembers(members, true)[i].value != Undefined
    decreases v, 0, |members|
  {
    if members != [] {
      CanonicalMembersText(v, members[1..]);
      if members[0].value != Undefined {
        CanonicalIsNormalText(members[0].value);
        assert NormalMembers(members, true)[1..] == NormalMembers(members[1..], true);
      }
    }
  }

  lemma {:induction false} InsertCommutes(e: Entry<Value>, entries: seq<Entry<Value>>)
    requires e.value != Undefined && forall i :: 0 <= i < |entries| ==> entries[i].value != Undefined
    ensures StringifyMembers(Insert(e, entries)) == Insert(Entry(e.key, Stringify(e.value)), StringifyMembers(entries))
    ensures forall i :: 0 <= i < |Insert(e, entries)| ==> Insert(e, entries)[i].value != Undefined
  {
    if entries == [] || !Less(entries[0].key, e.key) {
      assert ([e] + entries)[1..] == entries;
    } else {
      InsertCommutes(e, entries[1..]);
      assert Insert(e, entries)[1..] == Insert(e, entries[1..]);
    }
  }

  lemma {:induction false} SortCommutes(entries: seq<Entry<Value>>)
    requires forall i :: 0 <= i < |entries| ==> entries[i].value != Undefined
    ensures StringifyMembers(Sort(entries)) == Sort(StringifyMembers(entries))
    ensures forall i :: 0 <= i < |Sort(entries)| ==> Sort(entries)[i].value != Undefined
  {
    if entries != [] {
      SortCommutes(entries[1..]);
      InsertCommutes(entries[0], Sort(entries[1..]));
    }
  }

  // ---- Normal forms and meaning ----

  ghost predicate Maps(m: map<Text, Tree>, key: Text, t: Tree) {
    key in m && m[key] == t
  }

  ghost predicate MeansAt(members: seq<Entry<Value>>, i: int, key: Text, t: Tree) {
    0 <= i < |members| && members[i].value != Undefined && members[i].key == key && Meaning(members[i].value) == t
  }

  lemma {:induction false} MeaningFrom(members: seq<Entry<Value>>, key: Text, t: Tree)
    requires DistinctKeys(members)
    ensures Maps(MeaningMembers(members), key, t) <==> exists i :: MeansAt(members, i, key, t)
  {
    if members != [] {
      var tail := members[1..];
      MeaningFrom(tail, key, t);
      if members[0].value != Undefined && members[0].key == key && Meaning(members[0].value) == t {
        assert MeansAt(members, 0, key, t);
      }
      if i :| MeansAt(tail, i, key, t) {
        assert MeansAt(members, i + 1, key, t) && members[0].key != members[i + 1].key;
      }
      if i :| MeansAt(members, i, key, t) {
        assert i == 0 || MeansAt(tail, i - 1, key, t);
      }
    }
  }

  /** Normalising keeps the meaning. */
  lemma {:induction false} NormalKeepsMeaning(v: Value, sort: bool)
    requires WellFormed(v)
    ensures Meaning(Normal(v, sort)) == Meaning(v)
    decreases v
  {
    match v
    case Arr(items) =>
      forall i | 0 <= i < |items| ensures MeaningItems(NormalItems(items, sort))[i] == MeaningItems(items)[i] {
        NormalKeepsMeaning(items[i], sort);
        NormalItemAt(items, sort, i);
        MeaningItemAt(items, i);
        MeaningItemAt(NormalItems(items, sort), i);
      }
    case Obj(members) =>
      NormalIsDefined(v, sort);
      NormalObject(members, sort);
      var normal := Normal(v, sort).members;
      forall key, t ensures Maps(MeaningMembers(members), key, t) <==> Maps(MeaningMembers(normal), key, t) {
        MeaningFrom(members, key, t);
        MeaningFrom(normal, key, t);
        if i :| MeansAt(members, i, key, t) {
          NormalKeepsMeaning(members[i].value, sort);
          var e := Entry(key, Normal(members[i].value, sort));
          assert Becomes(members, sort, i, e);
          NormalMemberFrom(members, sort, e);
          var j :| 0 <= j < |normal| && normal[j] == e;
          assert MeansAt(normal, j, key, t);
        }
        if j :| MeansAt(normal, j, key, t) {
          assert normal[j] in normal;
          NormalMemberFrom(members, sort, normal[j]);
          var i :| Becomes(members, sort, i, normal[j]);
          NormalKeepsMeaning(members[i].value, sort);
          assert MeansAt(members, i, key, t);
        }
      }
      SameMap(MeaningMembers(members), MeaningMembers(normal));
    case _ =>
  }

  lemma SameMap(a: map<Text, Tree>, b: map<Text, Tree>)
    requires forall key, t :: Maps(a, key, t) <==> Maps(b, key, t)
    ensures a == b
  {
    forall key ensures key in a <==> key in b {
      if key in a { assert Maps(a, key, a[key]); }
      if key in b { assert Maps(b, key, b[key]); }
    }
    forall key | key in a ensures a[key] == b[key] {
      assert Maps(a, key, a[key]);
    }
  }

  /** Values with the same meaning have the same sorted normal form. */
  lemma {:induction false} MeaningDeterminesNormal(v: Value, w: Value)
    requires WellFormed(v) && WellFormed(w) && Meaning(v) == Meaning(w)
    ensures Normal(v, true) == Normal(w, true)
    decreases v
  {
    match v
    case Arr(items) =>
      forall i | 0 <= i < |items| ensures Normal(v, true).items[i] == Normal(w, true).items[i] {
        MeaningItemAt(items, i);
        MeaningItemAt(w.items, i);
        NormalItemAt(items, true, i);
        NormalItemAt(w.items, true, i);
        MeaningDeterminesNormal(items[i], w.items[i]);
      }
    case Obj(members) =>
      var a, b := NormalMembers(members, true), NormalMembers(w.members, true);
      forall e ensures e in a <==> e in b {
        NormalMemberFrom(members, true, e);
        NormalMemberFrom(w.members, true, e);
        if i :| Becomes(members, true, i, e) {
          var t := Meaning(members[i].value);
          assert MeansAt(members, i, e.key, t);
          MeaningFrom(members, e.key, t);
          MeaningFrom(w.members, e.key, t);
          var j :| MeansAt(w.members, j, e.key, t);
          MeaningDeterminesNormal(members[i].value, w.members[j].value);
          assert Becomes(w.members, true, j, e);
        }
        if j :| Becomes(w.members, true, j, e) {
          var t := Meaning(w.members[j].value);
          assert MeansAt(w.members, j, e.key, t);
          MeaningFrom(members, e.key, t);
          MeaningFrom(w.members, e.key, t);
          var i :| MeansAt(members, i, e.key, t);
          MeaningDeterminesNormal(members[i].value, w.members[j].value);
          assert Becomes(members, true, i, e);
        }
      }
      NormalKeysDistinct(members, true);
      NormalKeysDistinct(w.members, true);
      SortSorts(a);
      SortSorts(b);
      SortedIsUnique(Sort(a), Sort(b));
    case _ =>
  }

  // ---- The order of keys, stated on the texts themselves ----

  /** After a common start of length `k`, the first text ends or goes on with the smaller code unit. */
  ghost predicate PartsAt(a: Text, b: Text, k: nat) {
    k <= |a| && k < |b| && a[..k] == b[..k] && (k == |a| || a[k] < b[k])
  }

  ghost predicate ComesBefore(a: Text, b: Text) {
    exists k: nat :: PartsAt(a, b, k)
  }

  lemma {:induction false} LessMeans(a: Text, b: Text)
    ensures Less(a, b) <==> ComesBefore(a, b)
  {
    if a == [] || b == [] {
      assert b != [] ==> PartsAt([], b, 0);
    } else if a[0] == b[0] {
      LessMeans(a[1..], b[1..]);
      if k: nat :| PartsAt(a[1..], b[1..], k) {
        PartsLater(a, b, k + 1);
      }
      if k: nat :| PartsAt(a, b, k) {
        PartsLater(a, b, k);
      }
    } else {
      assert a[0] < b[0] ==> PartsAt(a, b, 0);
      forall k: nat | PartsAt(a, b, k) ensures a[0] < b[0] {
        assert k > 0 ==> a[..k][0] == b[..k][0];
      }
    }
  }

  lemma PartsLater(a: Text, b: Text, k: nat)
    requires a != [] && b != [] && a[0] == b[0] && 0 <= k
    ensures k > 0 ==> (PartsAt(a, b, k) <==> PartsAt(a[1..], b[1..], k - 1))
    ensures k == 0 ==> !PartsAt(a, b, k)
  {
    if 0 < k <= |a| && k < |b| {
      assert a[..k] == [a[0]] + a[1..][..k - 1] && b[..k] == [b[0]] + b[1..][..k - 1];
    }
  }

  /** In every object, however deep, each key comes before the later ones. */
  ghost predicate KeysAscend(v: Value) {
    match v
    case Arr(items) => forall i :: 0 <= i < |items| ==> KeysAscend(items[i])
    case Obj(members) =>
      && (forall i, j :: 0 <= i < j < |members| ==> ComesBefore(members[i].key, members[j].key))
      && (forall i :: 0 <= i < |members| ==> KeysAscend(members[i].value))
    case _ => true
  }

  lemma SortedAscends(entries: seq<Entry<Value>>)
    ensures Sorted(entries) <==>
              forall i, j :: 0 <= i < j < |entries| ==> ComesBefore(entries[i].key, entries[j].key)
  {
    forall i, j | 0 <= i < j < |entries|
      ensures Less(entries[i].key, entries[j].key) <==> ComesBefore(entries[i].key, entries[j].key)
    {
      LessMeans(entries[i].key, entries[j].key);
    }
  }

  lemma {:induction false} NormalAscends(v: Value)
    requires WellFormed(v)
    ensures KeysAscend(Normal(v, true))
    decreases v
  {
    match v
    case Arr(items) =>
      forall i | 0 <= i < |items| ensures KeysAscend(Normal(v, true).items[i]) {
        NormalAscends(items[i]);
        NormalItemAt(items, true, i);
      }
    case Obj(members) =>
      var normal := Normal(v, true).members;
      NormalKeysDistinct(members, true);
      SortSorts(NormalMembers(members, true));
      SortedAscends(normal);
      forall j | 0 <= j < |normal| ensures KeysAscend(normal[j].value) {
        assert normal[j] in normal;
        NormalMemberFrom(members, true, normal[j]);
        var i :| Becomes(members, true, i, normal[j]);
        NormalAscends(members[i].value);
      }
    case _ =>
  }

  /** A value without `undefined` whose keys ascend is its own normal form. */
  lemma {:induction false} AscendingIsNormal(v: Value)
    requires WellFormed(v) && Defined(v) && KeysAscend(v)
    ensures Normal(v, true) == v
    decreases v, 1
  {
    match v
    case Arr(items) =>
      forall i | 0 <= i < |items| ensures NormalItems(items, true)[i] == items[i] {
        AscendingIsNormal(items[i]);
        NormalItemAt(items, true, i);
      }
      assert NormalItems(items, true) == items;
    case Obj(members) =>
      MembersAreNormal(v, members);
      SortSorts(members);
      SortedAscends(members);
      SortedIsUnique(Sort(members), members);
    case _ =>
  }

  lemma {:induction false} MembersAreNormal(v: Value, members: seq<Entry<Value>>)
    requires forall i :: 0 <= i < |members| ==>
               var w := members[i].value; w < v && WellFormed(w) && Defined(w) && KeysAscend(w)
    ensures NormalMembers(members, true) == members
    decreases v, 0, |members|
  {
    if members != [] {
      AscendingIsNormal(members[0].value);
      MembersAreNormal(v, members[1..]);
      assert members == [members[0]] + members[1..];
    }
  }

  // ---- Main results ----

  /** `JSON.parse` reads a stringified value back, up to the dropped `undefined`s. */
  lemma StringifyRoundTrip(v: Value)
    requires WellFormed(v) && v != Undefined
    ensures Parse(Stringify(v)) == ParseOk(Normal(v, false))
  {
    var n := Normal(v, false);
    StringifyDrops(v);
    NormalIsDefined(v, false);
    ValueRoundTrip(n, []);
    assert Stringify(n) + [] == Stringify(n);
  }

  /** The canonical text can be parsed, and the result means the same as the value. */
  lemma CanonicalRoundTrip(v: Value)
    requires WellFormed(v) && v != Undefined
    ensures Parse(Canonicalize(v)) == ParseOk(Normal(v, true))
    ensures Meaning(Normal(v, true)) == Meaning(v)
  {
    var n := Normal(v, true);
    CanonicalIsNormalText(v);
    NormalIsDefined(v, true);
    NormalKeepsMeaning(v, true);
    ValueRoundTrip(n, []);
    assert Stringify(n) + [] == Stringify(n);
  }

  /**
   * Two values have the same canonical text exactly when they are equal up to
   * key order, dropped `undefined` members and `undefined` items read as null.
   */
  lemma CanonicalTextIsMeaning(v: Value, w: Value)
    requires WellFormed(v) && v != Undefined && WellFormed(w) && w != Undefined
    ensures Canonicalize(v) == Canonicalize(w) <==> Meaning(v) == Meaning(w)
  {
    if Canonicalize(v) == Canonicalize(w) {
      CanonicalRoundTrip(v);
      CanonicalRoundTrip(w);
    }
    if Meaning(v) == Meaning(w) {
      MeaningDeterminesNormal(v, w);
      CanonicalIsNormalText(v);
      CanonicalIsNormalText(w);
    }
  }

  /**
   * What the canonical text is: JSON with ascending keys in every object, and the
   * `JSON.stringify` text of any value with such keys that means the same.
   */
  lemma CanonicalKeysAscend(v: Value)
    requires WellFormed(v) && v != Undefined
    ensures Parse(Canonicalize(v)).ParseOk? && KeysAscend(Parse(Canonicalize(v)).value)
    ensures forall w :: WellFormed(w) && Defined(w) && KeysAscend(w) && Meaning(w) == Meaning(v) ==>
              Canonicalize(v) == Stringify(w)
  {
    CanonicalRoundTrip(v);
    NormalAscends(v);
    forall w | WellFormed(w) && Defined(w) && KeysAscend(w) && Meaning(w) == Meaning(v)
      ensures Canonicalize(v) == Stringify(w)
    {
      AscendingIsNormal(w);
      MeaningDeterminesNormal(v, w);
      CanonicalIsNormalText(v);
    }
  }

  /** Storing a value as JSON and reading it back does not change its canonical text. */
  lemma {:induction false} CanonicalSurvivesStorage(v: Value)
    requires WellFormed(v) && v != Undefined
    ensures Parse(Stringify(v)).ParseOk? && Parse(Stringify(v)).value != Undefined
    ensures Canonicalize(Parse(Stringify(v)).value) == Canonicalize(v)
  {
    StringifyRoundTrip(v);
    NormalIsDefined(v, false);
    NormalKeepsMeaning(v, false);
    CanonicalTextIsMeaning(Normal(v, false), v);
  }
}
