/** `JSON.parse` reads back what `JSON.stringify` wrote. */
module JsonRoundTrip {
  import opened Json

  // ---- Strings ----

  lemma ParseHexEscape(t: Text, a: int, b: int, c: int, d: int)
    requires |t| >= 6 && t[0] == BACKSLASH && t[1] == 117
    requires 0 <= a < 16 && 0 <= b < 16 && 0 <= c < 16 && 0 <= d < 16
    requires HexValue(t[2]) == a && HexValue(t[3]) == b && HexValue(t[4]) == c && HexValue(t[5]) == d
    ensures ParseUnit(t) == Parsed(a * 4096 + b * 256 + c * 16 + d, t[6..])
  {
  }

  lemma HexDigits(u: Unit)
    ensures u == u / 4096 * 4096 + u / 256 % 16 * 256 + u / 16 % 16 * 16 + u % 16
  {
    assert u == u / 16 * 16 + u % 16;
    assert u / 16 == u / 256 * 16 + u / 16 % 16;
    assert u / 256 == u / 4096 * 16 + u / 256 % 16;
  }

  lemma HexRoundTrip(u: Unit, rest: Text)
    ensures ParseUnit(HexEscape(u) + rest) == Parsed(u, rest)
  {
    var t := HexEscape(u) + rest;
    assert t[6..] == rest;
    HexDigitValue(u / 4096);
    HexDigitValue(u / 256 % 16);
    HexDigitValue(u / 16 % 16);
    HexDigitValue(u % 16);
    HexDigits(u);
    ParseHexEscape(t, u / 4096, u / 256 % 16, u / 16 % 16, u % 16);
  }

  lemma HexDigitValue(d: int)
    requires 0 <= d < 16
    ensures HexValue(HexDigit(d)) == d
  {
  }

  lemma {:induction false} UnitRoundTrip(u: Unit, rest: Text)
    ensures ParseUnit(EscapeUnit(u) + rest) == Parsed(u, rest)
    ensures EscapeUnit(u) != [] && EscapeUnit(u)[0] != QUOTE
  {
    var t := EscapeUnit(u) + rest;
    if u < 32 || IsHigh(u) || IsLow(u) {
      HexRoundTrip(u, rest);
    }
    if |EscapeUnit(u)| == 1 {
      assert t[1..] == rest;
    } else if |EscapeUnit(u)| == 2 {
      assert t[2..] == rest;
    }
  }

  /**
   * Apart from surrogates, no spelling of a code unit is shorter than the printed
   * one; one of the same length is the same, up to the case of hexadecimal digits,
   * which are printed in lower case.
   */
  lemma EscapeIsShortest(u: Unit, spelling: Text, rest: Text)
    requires spelling != [] && spelling[0] != QUOTE && !IsHigh(u) && !IsLow(u)
    requires ParseUnit(spelling + rest) == Parsed(u, rest)
    ensures |EscapeUnit(u)| <= |spelling|
    ensures |EscapeUnit(u)| == |spelling| < 6 ==> EscapeUnit(u) == spelling
    ensures |EscapeUnit(u)| == 6 ==> EscapeUnit(u) == HexEscape(u)
    ensures forall i :: 2 <= i < 6 ==> IsDigit(HexEscape(u)[i]) || 97 <= HexEscape(u)[i] <= 102
  {
    var t := spelling + rest;
    assert t[0] == spelling[0] && (|spelling| > 1 ==> t[1] == spelling[1]);
    assert |t| == |spelling| + |rest|;
    if t[0] != BACKSLASH {
      assert |t[1..]| == |rest|;
      assert spelling == [u];
    } else if LetterValue(t[1]) >= 0 {
      assert |t[2..]| == |rest|;
      assert spelling == [BACKSLASH, t[1]];
    } else {
      assert |t[6..]| == |rest|;
    }
  }

  // ---- The spelling of the tokens ----

  lemma LiteralsAreSpelled()
    ensures NULL == Ascii("null") && TRUE == Ascii("true") && FALSE == Ascii("false")
  {
  }

  lemma EscapesAreSpelled()
    ensures EscapeUnit(8) == Ascii("\\b") && EscapeUnit(9) == Ascii("\\t") && EscapeUnit(10) == Ascii("\\n")
    ensures EscapeUnit(12) == Ascii("\\f") && EscapeUnit(13) == Ascii("\\r")
    ensures EscapeUnit(34) == Ascii("\\\"") && EscapeUnit(92) == Ascii("\\\\") && EscapeUnit(31) == Ascii("\\u001f")
  {
  }

  lemma NumbersAreSpelled(d: nat, n: nat)
    requires d < 10 && n > 0
    ensures NumberText(d) == [48 + d] && NumberText(10 * n + d) == NumberText(n) + [48 + d]
    ensures NumberText(-(n as int)) == Ascii("-") + NumberText(n)
  {
    assert (10 * n + d) / 10 == n && (10 * n + d) % 10 == d;
  }

  /** Brackets, commas, colons and quotation marks stand where they belong, and nothing else. */
  lemma ArraysAreSpelled(x: Text, y: Text)
    ensures ArrayText([]) == Ascii("[]") && ArrayText([x, y]) == Ascii("[") + x + Ascii(",") + y + Ascii("]")
  {
    JoinOfTwo(x, y);
    assert [91] + (x + [COMMA] + y) + [93] == Ascii("[") + x + Ascii(",") + y + Ascii("]");
  }

  lemma ObjectsAreSpelled(x: Text, y: Text, k: Text, l: Text)
    ensures ObjectText([]) == Ascii("{}")
    ensures ObjectText([Entry(k, x), Entry(l, y)])
         == Ascii("{") + KeyedText(k, x) + Ascii(",") + KeyedText(l, y) + Ascii("}")
  {
    var a, b := KeyedText(k, x), KeyedText(l, y);
    assert KeyedTexts([Entry(k, x), Entry(l, y)]) == [a, b];
    JoinOfTwo(a, b);
    assert [123] + (a + [COMMA] + b) + [125] == Ascii("{") + a + Ascii(",") + b + Ascii("}");
  }

  lemma KeysAreSpelled(k: Text, x: Text)
    ensures KeyedText(k, x) == Ascii("\"") + Escape(k) + Ascii("\":") + x
  {
  }

  lemma JoinOfTwo(x: Text, y: Text)
    ensures Join([x, y]) == x + [COMMA] + y
  {
    assert [x, y][1..] == [y];
  }

  lemma OneMoreUnit(t: Text, u: Unit, tail: Text, s: Text, rest: Text)
    requires t != [] && t[0] != QUOTE && ParseUnit(t) == Parsed(u, tail)
    requires ParseChars(tail) == Parsed(s, rest)
    ensures ParseChars(t) == Parsed([u] + s, rest)
  {
  }

  lemma Regroup(e: Text, middle: Text, rest: Text)
    ensures (e + middle) + [QUOTE] + rest == e + (middle + [QUOTE] + rest)
  {
  }

  lemma UnitThenChars(e: Text, u: Unit, middle: Text, s: Text, rest: Text)
    requires e != [] && e[0] != QUOTE && ParseUnit(e + (middle + [QUOTE] + rest)) == Parsed(u, middle + [QUOTE] + rest)
    requires ParseChars(middle + [QUOTE] + rest) == Parsed(s, rest)
    ensures ParseChars((e + middle) + [QUOTE] + rest) == Parsed([u] + s, rest)
  {
    Regroup(e, middle, rest);
    OneMoreUnit(e + (middle + [QUOTE] + rest), u, middle + [QUOTE] + rest, s, rest);
  }

  lemma PairThenChars(a: Unit, b: Unit, middle: Text, s: Text, rest: Text)
    requires IsHigh(a) && IsLow(b)
    requires ParseChars(middle + [QUOTE] + rest) == Parsed(s, rest)
    ensures ParseChars(([a, b] + middle) + [QUOTE] + rest) == Parsed([a, b] + s, rest)
  {
    SurrogateIsLiteral(b, middle + [QUOTE] + rest);
    UnitThenChars([b], b, middle, s, rest);
    var later, t := [b] + middle, [b] + s;
    SurrogateIsLiteral(a, later + [QUOTE] + rest);
    UnitThenChars([a], a, later, t, rest);
    PairText(a, b, middle);
    PairText(a, b, s);
  }

  lemma PairText(a: Unit, b: Unit, s: Text)
    ensures [a] + ([b] + s) == [a, b] + s
  {
  }

  lemma SurrogateIsLiteral(u: Unit, tail: Text)
    requires IsHigh(u) || IsLow(u)
    ensures [u][0] != QUOTE && ParseUnit([u] + tail) == Parsed(u, tail)
  {
    assert ([u] + tail)[1..] == tail;
  }

  lemma SplitPair(s: Text)
    requires |s| >= 2
    ensures s[..2] == [s[0], s[1]] && s == [s[0], s[1]] + s[2..]
  {
  }

  lemma SplitUnit(s: Text)
    requires s != []
    ensures s == [s[0]] + s[1..]
  {
  }

  lemma {:induction false} CharsRoundTrip(s: Text, rest: Text)
    ensures ParseChars(Escape(s) + [QUOTE] + rest) == Parsed(s, rest)
    decreases |s|
  {
    if s == [] {
      assert Escape(s) + [QUOTE] + rest == [QUOTE] + rest && ([QUOTE] + rest)[1..] == rest;
    } else if |s| >= 2 && IsHigh(s[0]) && IsLow(s[1]) {
      SplitPair(s);
      CharsRoundTrip(s[2..], rest);
      PairThenChars(s[0], s[1], Escape(s[2..]), s[2..], rest);
    } else {
      CharsRoundTrip(s[1..], rest);
      UnitRoundTrip(s[0], Escape(s[1..]) + [QUOTE] + rest);
      UnitThenChars(EscapeUnit(s[0]), s[0], Escape(s[1..]), s[1..], rest);
      SplitUnit(s);
    }
  }

  // ---- Numbers ----

  lemma {:induction false} DigitsRoundTrip(n: nat)
    ensures Digits(n) != [] && forall i :: 0 <= i < |Digits(n)| ==> IsDigit(Digits(n)[i])
    ensures NatOf(Digits(n)) == n
    ensures n > 0 ==> Digits(n)[0] != 48
    ensures n < 10 <==> |Digits(n)| == 1
  {
    if n >= 10 {
      DigitsRoundTrip(n / 10);
      assert Digits(n)[..|Digits(n)| - 1] == Digits(n / 10);
    } else {
      assert Digits(n)[..0] == [];
    }
  }

  /** What may follow a value inside a printed text. */
  ghost predicate Ends(rest: Text) {
    rest == [] || rest[0] == COMMA || rest[0] == 93 || rest[0] == 125
  }

  lemma {:induction false} PrefixIsDigits(digits: Text, rest: Text)
    requires (forall i :: 0 <= i < |digits| ==> IsDigit(digits[i])) && Ends(rest)
    ensures DigitsPrefix(digits + rest) == |digits|
  {
    if digits == [] {
      assert digits + rest == rest;
    } else {
      PrefixIsDigits(digits[1..], rest);
      assert (digits + rest)[1..] == digits[1..] + rest;
    }
  }

  lemma NatRoundTrip(n: nat, rest: Text)
    requires Ends(rest)
    ensures ParseNat(Digits(n) + rest) == Parsed(n, rest)
  {
    var t := Digits(n) + rest;
    DigitsRoundTrip(n);
    PrefixIsDigits(Digits(n), rest);
    assert t[..|Digits(n)|] == Digits(n) && t[|Digits(n)|..] == rest;
    assert n == 0 ==> |Digits(n)| == 1;
  }

  // ---- Values ----

  lemma SkipNothing(t: Text)
    requires t != [] ==> !IsSpace(t[0])
    ensures Skip(t) == t
  {
  }

  /** A printed value starts with a character that is neither space nor a closing bracket. */
  lemma FirstOfValue(v: Value)
    requires v != Undefined
    ensures Stringify(v) != [] && !IsSpace(Stringify(v)[0]) && Stringify(v)[0] != 93
  {
    if v.Num? {
      DigitsRoundTrip(if v.n < 0 then -v.n else v.n);
    }
  }

  lemma AtNumber(t: Text)
    requires t != [] && (t[0] == 45 || IsDigit(t[0]))
    ensures ParseValue(t) == ParseNumber(t)
  {
    SkipNothing(t);
    NumberIsNoLiteral(t);
  }

  lemma NumberIsNoLiteral(t: Text)
    requires t != [] && (t[0] == 45 || IsDigit(t[0]))
    ensures !(NULL <= t) && !(TRUE <= t) && !(FALSE <= t)
  {
    assert NULL[0] != t[0] && TRUE[0] != t[0] && FALSE[0] != t[0];
  }

  lemma ParseSigned(t: Text, tail: Text, m: nat, rest: Text)
    requires t == [45] + tail && ParseNat(tail) == Parsed(m, rest)
    ensures ParseNumber(t) == Parsed(Num(-(m as int)), rest)
  {
    assert t[1..] == tail;
  }

  lemma ParseUnsigned(t: Text, m: nat, rest: Text)
    requires t != [] && t[0] != 45 && ParseNat(t) == Parsed(m, rest)
    ensures ParseNumber(t) == Parsed(Num(m), rest)
  {
  }

  lemma NegativeParses(m: nat, t: Text, rest: Text)
    requires Ends(rest) && t == [45] + Digits(m) + rest
    ensures ParseNumber(t) == Parsed(Num(-(m as int)), rest)
  {
    NatRoundTrip(m, rest);
    assert t == [45] + (Digits(m) + rest);
    ParseSigned(t, Digits(m) + rest, m, rest);
  }

  lemma NaturalParses(m: nat, t: Text, rest: Text)
    requires Ends(rest) && t == Digits(m) + rest
    ensures t != [] && IsDigit(t[0]) && ParseNumber(t) == Parsed(Num(m), rest)
  {
    DigitsRoundTrip(m);
    assert t[0] == Digits(m)[0];
    NatRoundTrip(m, rest);
    ParseUnsigned(t, m, rest);
  }

  lemma NumberParses(n: int, t: Text, rest: Text)
    requires Ends(rest) && t == NumberText(n) + rest
    ensures t != [] && (t[0] == 45 || IsDigit(t[0]))
    ensures ParseNumber(t) == Parsed(Num(n), rest)
  {
    if n < 0 {
      NegativeParses(-n, t, rest);
    } else {
      NaturalParses(n, t, rest);
    }
  }

  lemma NumberRoundTrip(n: int, rest: Text)
    requires Ends(rest)
    ensures ParseValue(NumberText(n) + rest) == Parsed(Num(n), rest)
  {
    var t := NumberText(n) + rest;
    NumberParses(n, t, rest);
    AtNumber(t);
  }

  lemma AtArray(items: seq<Value>, body: Text, rest: Text)
    requires if items == [] then body == []
             else body != [] && !IsSpace(body[0]) && body[0] != 93
                  && ParseItems(body + [93] + rest) == Parsed(items, rest)
    ensures ParseValue([91] + body + [93] + rest) == Parsed(Arr(items), rest)
  {
    var t := [91] + body + [93] + rest;
    assert t[1..] == body + [93] + rest;
    SkipNothing(t);
    SkipNothing(t[1..]);
    if items == [] {
      assert t[1..][1..] == rest;
    }
  }

  lemma AtObject(members: seq<Entry<Value>>, body: Text, rest: Text)
    requires if members == [] then body == []
             else body != [] && body[0] == QUOTE
                  && ParseMembers(body + [125] + rest, []) == Parsed(members, rest)
    ensures ParseValue([123] + body + [125] + rest) == Parsed(Obj(members), rest)
  {
    var t := [123] + body + [125] + rest;
    assert t[1..] == body + [125] + rest;
    SkipNothing(t);
    SkipNothing(t[1..]);
    if members == [] {
      assert t[1..][1..] == rest;
    }
  }

  lemma LiteralRoundTrip(v: Value, rest: Text)
    requires v.Null? || v.Bool?
    ensures ParseValue(Stringify(v) + rest) == Parsed(v, rest)
  {
    var t := Stringify(v) + rest;
    SkipNothing(t);
    assert t[|Stringify(v)|..] == rest;
    assert t[0] == Stringify(v)[0] && t[..|Stringify(v)|] == Stringify(v);
    assert NULL[0] != TRUE[0] && NULL[0] != FALSE[0] && TRUE[0] != FALSE[0];
    if NULL <= t { assert t[0] == NULL[0]; }
    if TRUE <= t { assert t[0] == TRUE[0]; }
  }

  lemma StringRoundTrip(s: Text, rest: Text)
    ensures ParseValue(Quote(s) + rest) == Parsed(Str(s), rest)
  {
    var t := Quote(s) + rest;
    SkipNothing(t);
    assert t[1..] == Escape(s) + [QUOTE] + rest;
    CharsRoundTrip(s, rest);
  }

  lemma {:induction false} ValueRoundTrip(v: Value, rest: Text)
    requires Defined(v) && WellFormed(v) && Ends(rest)
    ensures ParseValue(Stringify(v) + rest) == Parsed(v, rest)
    decreases v, 1
  {
    match v
    case Null => LiteralRoundTrip(v, rest);
    case Bool(_) => LiteralRoundTrip(v, rest);
    case Num(n) => NumberRoundTrip(n, rest);
    case Str(s) => StringRoundTrip(s, rest);
    case Arr(items) =>
      if items != [] {
        ItemsRoundTrip(v, items, rest);
        FirstOfItems(items);
      }
      AtArray(items, Join(StringifyItems(items)), rest);
    case Obj(members) =>
      if members != [] {
        assert [] + members == members;
        MembersRoundTrip(v, [], members, rest);
        FirstOfMembers(members);
      }
      AtObject(members, Join(KeyedTexts(StringifyMembers(members))), rest);
  }

  lemma FirstOfItems(items: seq<Value>)
    requires items != [] && items[0] != Undefined
    ensures Join(StringifyItems(items)) != []
    ensures !IsSpace(Join(StringifyItems(items))[0]) && Join(StringifyItems(items))[0] != 93
  {
    FirstOfValue(items[0]);
    assert StringifyItems(items)[0] == Stringify(items[0]);
  }

  lemma AtLastItem(a: Text, v: Value, rest: Text)
    requires ParseValue(a + ([93] + rest)) == Parsed(v, [93] + rest)
    ensures ParseItems(a + [93] + rest) == Parsed([v], rest)
  {
    assert a + [93] + rest == a + ([93] + rest);
    assert ([93] + rest)[1..] == rest;
  }

  lemma AtItem(a: Text, v: Value, later: Text, items: seq<Value>, rest: Text)
    requires ParseValue(a + ([COMMA] + (later + [93] + rest))) == Parsed(v, [COMMA] + (later + [93] + rest))
    requires ParseItems(later + [93] + rest) == Parsed(items, rest)
    ensures ParseItems((a + [COMMA] + later) + [93] + rest) == Parsed([v] + items, rest)
  {
    ItemText(a, later, rest);
    OneMoreItem(a + ([COMMA] + (later + [93] + rest)), v, later + [93] + rest, items, rest);
  }

  lemma ItemText(a: Text, later: Text, rest: Text)
    ensures (a + [COMMA] + later) + [93] + rest == a + ([COMMA] + (later + [93] + rest))
  {
  }

  lemma OneMoreItem(t: Text, v: Value, tail: Text, items: seq<Value>, rest: Text)
    requires ParseValue(t) == Parsed(v, [COMMA] + tail) && ParseItems(tail) == Parsed(items, rest)
    ensures ParseItems(t) == Parsed([v] + items, rest)
  {
    assert ([COMMA] + tail)[1..] == tail;
  }

  lemma JoinItems(items: seq<Value>)
    requires items != [] && items[0] != Undefined
    ensures Join(StringifyItems(items)) ==
            if |items| == 1 then Stringify(items[0])
            else Stringify(items[0]) + [COMMA] + Join(StringifyItems(items[1..]))
  {
    var texts := StringifyItems(items);
    assert texts[0] == Stringify(items[0]) && texts[1..] == StringifyItems(items[1..]);
    if |items| > 1 {
      assert |StringifyItems(items[1..])| >= 1;
    }
  }

  ghost predicate AreItemsOf(v: Value, items: seq<Value>) {
    forall i :: 0 <= i < |items| ==> items[i] < v && Defined(items[i]) && WellFormed(items[i])
  }

  lemma FirstItem(v: Value, items: seq<Value>)
    requires items != [] && AreItemsOf(v, items)
    ensures items[0] < v && items[0] != Undefined && Defined(items[0]) && WellFormed(items[0])
    ensures AreItemsOf(v, items[1..]) && items == [items[0]] + items[1..]
  {
  }

  lemma {:induction false} ItemsRoundTrip(v: Value, items: seq<Value>, rest: Text)
    requires items != [] && AreItemsOf(v, items)
    ensures ParseItems(Join(StringifyItems(items)) + [93] + rest) == Parsed(items, rest)
    decreases v, 0, |items|
  {
    var first, others := items[0], items[1..];
    FirstItem(v, items);
    JoinItems(items);
    if |items| == 1 {
      ValueRoundTrip(first, [93] + rest);
      AtLastItem(Stringify(first), first, rest);
      assert items == [first];
    } else {
      var later := Join(StringifyItems(others));
      ValueRoundTrip(first, [COMMA] + (later + [93] + rest));
      ItemsRoundTrip(v, others, rest);
      AtItem(Stringify(first), first, later, others, rest);
    }
  }

  lemma FirstOfMembers(members: seq<Entry<Value>>)
    requires members != [] && members[0].value != Undefined
    ensures Join(KeyedTexts(StringifyMembers(members))) != []
    ensures Join(KeyedTexts(StringifyMembers(members)))[0] == QUOTE
  {
    assert KeyedTexts(StringifyMembers(members))[0][0] == QUOTE;
  }

  lemma {:induction false} PutAppends(members: seq<Entry<Value>>, m: Entry<Value>)
    requires forall i :: 0 <= i < |members| ==> members[i].key != m.key
    ensures Put(members, m) == members + [m]
  {
    if members != [] {
      PutAppends(members[1..], m);
      assert members + [m] == [members[0]] + (members[1..] + [m]);
    }
  }

  lemma AtMember(key: Text, a: Text, v: Value, after: Text, before: seq<Entry<Value>>)
    requires ParseValue(a + after) == Parsed(v, after) && after != [] && (after[0] == 125 || after[0] == COMMA)
    ensures ParseMembers(KeyedText(key, a) + after, before)
         == var members := Put(before, Entry(key, v));
            if after[0] == 125 then Parsed(members, after[1..]) else ParseMembers(after[1..], members)
  {
    var t := KeyedText(key, a) + after;
    var tail := [COLON] + (a + after);
    KeyedTextParts(key, a, after, t, tail);
    CharsRoundTrip(key, tail);
    SkipNothing(t);
    SkipNothing(tail);
    SkipNothing(after);
    OneMemberRead(t, key, tail, v, after, before);
  }

  lemma KeyedTextParts(key: Text, a: Text, after: Text, t: Text, tail: Text)
    requires t == KeyedText(key, a) + after && tail == [COLON] + (a + after)
    ensures t != [] && t[0] == QUOTE && t[1..] == Escape(key) + [QUOTE] + tail && tail[1..] == a + after
  {
  }

  lemma OneMemberRead(t: Text, key: Text, tail: Text, v: Value, after: Text, before: seq<Entry<Value>>)
    requires Skip(t) == t && t != [] && t[0] == QUOTE && ParseChars(t[1..]) == Parsed(key, tail)
    requires Skip(tail) == tail && tail != [] && tail[0] == COLON && ParseValue(tail[1..]) == Parsed(v, after)
    requires Skip(after) == after && after != [] && (after[0] == 125 || after[0] == COMMA)
    ensures ParseMembers(t, before)
         == var members := Put(before, Entry(key, v));
            if after[0] == 125 then Parsed(members, after[1..]) else ParseMembers(after[1..], members)
  {
  }

  lemma {:induction false} NothingLeftOut(members: seq<Entry<Value>>)
    requires forall i :: 0 <= i < |members| ==> members[i].value != Undefined
    ensures |StringifyMembers(members)| == |members|
  {
    if members != [] {
      NothingLeftOut(members[1..]);
    }
  }

  lemma JoinKeyed(entries: seq<Entry<Text>>)
    requires entries != []
    ensures Join(KeyedTexts(entries)) ==
            if |entries| == 1 then KeyedText(entries[0].key, entries[0].value)
            else KeyedText(entries[0].key, entries[0].value) + [COMMA] + Join(KeyedTexts(entries[1..]))
  {
    assert KeyedTexts(entries)[1..] == KeyedTexts(entries[1..]);
  }

  lemma JoinMembers(members: seq<Entry<Value>>)
    requires members != [] && forall i :: 0 <= i < |members| ==> members[i].value != Undefined
    ensures Join(KeyedTexts(StringifyMembers(members))) ==
            var first := KeyedText(members[0].key, Stringify(members[0].value));
            if |members| == 1 then first else first + [COMMA] + Join(KeyedTexts(StringifyMembers(members[1..])))
  {
    var entries := StringifyMembers(members);
    NothingLeftOut(members);
    JoinKeyed(entries);
    assert entries[1..] == StringifyMembers(members[1..]);
  }

  ghost predicate ArePartsOf(v: Value, members: seq<Entry<Value>>) {
    forall i :: 0 <= i < |members| ==>
      members[i].value < v && Defined(members[i].value) && WellFormed(members[i].value)
  }

  lemma FirstPart(v: Value, before: seq<Entry<Value>>, members: seq<Entry<Value>>)
    requires members != [] && DistinctKeys(before + members) && ArePartsOf(v, members)
    ensures members[0].value < v && Defined(members[0].value) && WellFormed(members[0].value)
    ensures Put(before, members[0]) == before + [members[0]]
    ensures (before + [members[0]]) + members[1..] == before + members && ArePartsOf(v, members[1..])
    ensures |members| == 1 ==> before + [members[0]] == before + members
  {
    PutAppendsTo(before, members);
  }

  lemma {:induction false} MembersRoundTrip(v: Value, before: seq<Entry<Value>>, members: seq<Entry<Value>>, rest: Text)
    requires members != [] && DistinctKeys(before + members) && ArePartsOf(v, members)
    ensures ParseMembers(Join(KeyedTexts(StringifyMembers(members))) + [125] + rest, before)
         == Parsed(before + members, rest)
    decreases v, 0, |members|
  {
    var m := members[0];
    var value := Stringify(m.value);
    FirstPart(v, before, members);
    JoinMembers(members);
    if |members| == 1 {
      ValueRoundTrip(m.value, [125] + rest);
      LastMember(before, m, value, rest);
    } else {
      var later := Join(KeyedTexts(StringifyMembers(members[1..])));
      MembersRoundTrip(v, before + [m], members[1..], rest);
      ValueRoundTrip(m.value, [COMMA] + (later + [125] + rest));
      OneMember(before, m, value, later, before + members, rest);
    }
  }

  lemma LastMember(before: seq<Entry<Value>>, m: Entry<Value>, value: Text, rest: Text)
    requires Put(before, m) == before + [m]
    requires ParseValue(value + ([125] + rest)) == Parsed(m.value, [125] + rest)
    ensures ParseMembers(KeyedText(m.key, value) + [125] + rest, before) == Parsed(before + [m], rest)
  {
    AtMember(m.key, value, m.value, [125] + rest, before);
    LastMemberText(KeyedText(m.key, value), rest);
  }

  lemma OneMember(before: seq<Entry<Value>>, m: Entry<Value>, value: Text, later: Text,
                  all: seq<Entry<Value>>, rest: Text)
    requires Put(before, m) == before + [m]
    requires ParseValue(value + ([COMMA] + (later + [125] + rest))) == Parsed(m.value, [COMMA] + (later + [125] + rest))
    requires ParseMembers(later + [125] + rest, before + [m]) == Parsed(all, rest)
    ensures ParseMembers((KeyedText(m.key, value) + [COMMA] + later) + [125] + rest, before) == Parsed(all, rest)
  {
    AtMember(m.key, value, m.value, [COMMA] + (later + [125] + rest), before);
    MemberText(KeyedText(m.key, value), later, rest);
  }

  lemma LastMemberText(a: Text, rest: Text)
    ensures a + [125] + rest == a + ([125] + rest) && ([125] + rest)[1..] == rest
  {
  }

  lemma MemberText(a: Text, later: Text, rest: Text)
    ensures (a + [COMMA] + later) + [125] + rest == a + ([COMMA] + (later + [125] + rest))
    ensures ([COMMA] + (later + [125] + rest))[1..] == later + [125] + rest
  {
  }

  lemma PutAppendsTo(before: seq<Entry<Value>>, members: seq<Entry<Value>>)
    requires members != [] && DistinctKeys(before + members)
    ensures Put(before, members[0]) == before + [members[0]]
  {
    forall i | 0 <= i < |before| ensures before[i].key != members[0].key {
      assert (before + members)[i] == before[i] && (before + members)[|before|] == members[0];
    }
    PutAppends(before, members[0]);
  }
}
