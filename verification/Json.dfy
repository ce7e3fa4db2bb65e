/**
 * JavaScript values as the ledger uses them, `JSON.stringify` and `JSON.parse`
 * (RFC 8259; strings follow its section 7). Text is a sequence of UTF-16 code
 * units, and numbers are integers.
 */
module Json {

  type Unit = u: int | 0 <= u < 0x10000

  type Text = seq<Unit>

  datatype Entry<T> = Entry(key: Text, value: T)

  /** An object lists its own properties in insertion order. */
  datatype Value =
    | Undefined
    | Null
    | Bool(b: bool)
    | Num(n: int)
    | Str(s: Text)
    | Arr(items: seq<Value>)
    | Obj(members: seq<Entry<Value>>)

  const NULL: Text := [110, 117, 108, 108]
  const TRUE: Text := [116, 114, 117, 101]
  const FALSE: Text := [102, 97, 108, 115, 101]
  const QUOTE: Unit := 34
  const COMMA: Unit := 44
  const COLON: Unit := 58
  const BACKSLASH: Unit := 92

  function Ascii(s: string): (t: Text)
    ensures |t| == |s|
    ensures forall i :: 0 <= i < |s| && s[i] < 128 as char ==> t[i] == s[i] as int
  {
    seq(|s|, i requires 0 <= i < |s| => if s[i] < 128 as char then s[i] as int else 63)
  }

  ghost predicate DistinctKeys<T>(entries: seq<Entry<T>>) {
    forall i, j :: 0 <= i < j < |entries| ==> entries[i].key != entries[j].key
  }

  /** No object has a key twice, as in JavaScript. */
  ghost predicate WellFormed(v: Value) {
    match v
    case Arr(items) => forall i :: 0 <= i < |items| ==> WellFormed(items[i])
    case Obj(members) => DistinctKeys(members) && forall i :: 0 <= i < |members| ==> WellFormed(members[i].value)
    case _ => true
  }

  /** `undefined` occurs nowhere in the value. */
  ghost predicate Defined(v: Value) {
    match v
    case Undefined => false
    case Arr(items) => forall i :: 0 <= i < |items| ==> Defined(items[i])
    case Obj(members) => forall i :: 0 <= i < |members| ==> Defined(members[i].value)
    case _ => true
  }

  // ---- JSON.stringify ----

  function Digits(n: nat): Text {
    if n < 10 then [48 + n] else Digits(n / 10) + [48 + n % 10]
  }

  function NumberText(n: int): Text {
    if n < 0 then [45] + Digits(-n) else Digits(n)
  }

  predicate IsHigh(u: Unit) { 0xD800 <= u < 0xDC00 }

  predicate IsLow(u: Unit) { 0xDC00 <= u < 0xE000 }

  function HexDigit(d: int): Unit
    requires 0 <= d < 16
  {
    if d < 10 then 48 + d else 87 + d
  }

  function HexEscape(u: Unit): Text {
    [BACKSLASH, 117, HexDigit(u / 4096), HexDigit(u / 256 % 16), HexDigit(u / 16 % 16), HexDigit(u % 16)]
  }

  /** The letter of a two-character escape, or 0. */
  function EscapeLetter(u: Unit): Unit {
    if u == QUOTE || u == BACKSLASH then u
    else if u == 8 then 98
    else if u == 9 then 116
    else if u == 10 then 110
    else if u == 12 then 102
    else if u == 13 then 114
    else 0
  }

  function EscapeUnit(u: Unit): Text {
    if EscapeLetter(u) != 0 then [BACKSLASH, EscapeLetter(u)]
    else if u < 32 || IsHigh(u) || IsLow(u) then HexEscape(u)
    else [u]
  }

  /** A surrogate pair is copied, a lone surrogate is escaped. */
  function Escape(s: Text): Text {
    if s == [] then []
    else if |s| >= 2 && IsHigh(s[0]) && IsLow(s[1]) then s[..2] + Escape(s[2..])
    else EscapeUnit(s[0]) + Escape(s[1..])
  }

  function Quote(s: Text): Text {
    [QUOTE] + Escape(s) + [QUOTE]
  }

  function Join(parts: seq<Text>): Text {
    if parts == [] then []
    else if |parts| == 1 then parts[0]
    else parts[0] + [COMMA] + Join(parts[1..])
  }

  function KeyedText(key: Text, value: Text): Text {
    Quote(key) + [COLON] + value
  }

  function KeyedTexts(entries: seq<Entry<Text>>): seq<Text> {
    seq(|entries|, i requires 0 <= i < |entries| => KeyedText(entries[i].key, entries[i].value))
  }

  function ObjectText(entries: seq<Entry<Text>>): Text {
    [123] + Join(KeyedTexts(entries)) + [125]
  }

  function ArrayText(parts: seq<Text>): Text {
    [91] + Join(parts) + [93]
  }

  /** Members whose value is `undefined` are left out, undefined array items become `null`. */
  function Stringify(v: Value): Text
    requires v != Undefined
  {
    match v
    case Null => NULL
    case Bool(b) => if b then TRUE else FALSE
    case Num(n) => NumberText(n)
    case Str(s) => Quote(s)
    case Arr(items) => ArrayText(StringifyItems(items))
    case Obj(members) => ObjectText(StringifyMembers(members))
  }

  function StringifyItems(items: seq<Value>): seq<Text> {
    if items == [] then []
    else [if items[0] == Undefined then NULL else Stringify(items[0])] + StringifyItems(items[1..])
  }

  function StringifyMembers(members: seq<Entry<Value>>): seq<Entry<Text>> {
    if members == [] then []
    else if members[0].value == Undefined then StringifyMembers(members[1..])
    else [Entry(members[0].key, Stringify(members[0].value))] + StringifyMembers(members[1..])
  }

  // ---- JSON.parse ----

  datatype Parsed<+T> = Parsed(value: T, rest: Text) | Bad

  predicate IsSpace(u: Unit) { u == 32 || u == 9 || u == 10 || u == 13 }

  function Skip(t: Text): (r: Text)
    ensures |r| <= |t|
  {
    if t != [] && IsSpace(t[0]) then Skip(t[1..]) else t
  }

  function HexValue(u: Unit): (d: int)
    ensures -1 <= d < 16
  {
    if 48 <= u <= 57 then u - 48
    else if 97 <= u <= 102 then u - 87
    else if 65 <= u <= 70 then u - 55
    else -1
  }

  /** What the letter after a backslash stands for, or -1. */
  function LetterValue(u: Unit): (v: int)
    ensures -1 <= v < 0x10000
  {
    if u == QUOTE || u == BACKSLASH || u == 47 then u
    else if u == 98 then 8
    else if u == 116 then 9
    else if u == 110 then 10
    else if u == 102 then 12
    else if u == 114 then 13
    else -1
  }

  /** One character of a string: a literal code unit or an escape. */
  function ParseUnit(t: Text): (r: Parsed<Unit>)
    ensures r.Parsed? ==> |r.rest| < |t|
  {
    if t == [] || t[0] < 32 then Bad
    else if t[0] != BACKSLASH then Parsed(t[0], t[1..])
    else if |t| < 2 then Bad
    else if LetterValue(t[1]) >= 0 then Parsed(LetterValue(t[1]), t[2..])
    else if t[1] != 117 || |t| < 6 then Bad
    else
      var a, b, c, d := HexValue(t[2]), HexValue(t[3]), HexValue(t[4]), HexValue(t[5]);
      if a < 0 || b < 0 || c < 0 || d < 0 then Bad
      else Parsed(a * 4096 + b * 256 + c * 16 + d, t[6..])
  }

  /** The characters of a string up to and including its closing quote. */
  function ParseChars(t: Text): (r: Parsed<Text>)
    ensures r.Parsed? ==> |r.rest| < |t|
    decreases |t|
  {
    if t == [] then Bad
    else if t[0] == QUOTE then Parsed([], t[1..])
    else match ParseUnit(t)
      case Bad => Bad
      case Parsed(u, rest) =>
        match ParseChars(rest)
        case Bad => Bad
        case Parsed(s, rest') => Parsed([u] + s, rest')
  }

  predicate IsDigit(u: Unit) { 48 <= u <= 57 }

  function DigitsPrefix(t: Text): (n: nat)
    ensures n <= |t|
    ensures forall i :: 0 <= i < n ==> IsDigit(t[i])
    ensures n < |t| ==> !IsDigit(t[n])
  {
    if t != [] && IsDigit(t[0]) then 1 + DigitsPrefix(t[1..]) else 0
  }

  function NatOf(digits: Text): nat
    requires forall i :: 0 <= i < |digits| ==> IsDigit(digits[i])
  {
    if digits == [] then 0
    else
      var last := digits[|digits| - 1];
      assert IsDigit(last);
      NatOf(digits[..|digits| - 1]) * 10 + (last as int - 48)
  }

  /** An integer without sign; fractions and exponents are not part of the model. */
  function ParseNat(t: Text): (r: Parsed<nat>)
    ensures r.Parsed? ==> |r.rest| < |t|
  {
    var n := DigitsPrefix(t);
    if n == 0 || (n > 1 && t[0] == 48) then Bad
    else if n < |t| && (t[n] == 46 || t[n] == 69 || t[n] == 101) then Bad
    else Parsed(NatOf(t[..n]), t[n..])
  }

  function ParseNumber(t: Text): (r: Parsed<Value>)
    ensures r.Parsed? ==> |r.rest| < |t|
  {
    if t != [] && t[0] == 45 then
      match ParseNat(t[1..])
      case Bad => Bad
      case Parsed(n, rest) => Parsed(Num(-(n as int)), rest)
    else
      match ParseNat(t)
      case Bad => Bad
      case Parsed(n, rest) => Parsed(Num(n), rest)
  }

  /** Adds a member; a repeated key keeps its place and takes the later value. */
  function Put(members: seq<Entry<Value>>, m: Entry<Value>): seq<Entry<Value>> {
    if members == [] then [m]
    else if members[0].key == m.key then [m] + members[1..]
    else [members[0]] + Put(members[1..], m)
  }

  function ParseValue(t0: Text): (r: Parsed<Value>)
    ensures r.Parsed? ==> |r.rest| < |t0|
    decreases |t0|, 0
  {
    var t := Skip(t0);
    if t == [] then Bad
    else if t[0] == QUOTE then
      match ParseChars(t[1..])
      case Bad => Bad
      case Parsed(s, rest) => Parsed(Str(s), rest)
    else if t[0] == 91 then
      var u := Skip(t[1..]);
      if u != [] && u[0] == 93 then Parsed(Arr([]), u[1..])
      else
        match ParseItems(t[1..])
        case Bad => Bad
        case Parsed(items, rest) => Parsed(Arr(items), rest)
    else if t[0] == 123 then
      var u := Skip(t[1..]);
      if u != [] && u[0] == 125 then Parsed(Obj([]), u[1..])
      else
        match ParseMembers(t[1..], [])
        case Bad => Bad
        case Parsed(members, rest) => Parsed(Obj(members), rest)
    else if NULL <= t then Parsed(Null, t[4..])
    else if TRUE <= t then Parsed(Bool(true), t[4..])
    else if FALSE <= t then Parsed(Bool(false), t[5..])
    else ParseNumber(t)
  }

  /** The items of a non-empty array up to and including its closing bracket. */
  function ParseItems(t: Text): (r: Parsed<seq<Value>>)
    ensures r.Parsed? ==> |r.rest| < |t|
    decreases |t|, 1
  {
    match ParseValue(t)
    case Bad => Bad
    case Parsed(v, rest) =>
      var u := Skip(rest);
      if u == [] then Bad
      else if u[0] == 93 then Parsed([v], u[1..])
      else if u[0] != COMMA then Bad
      else
        match ParseItems(u[1..])
        case Bad => Bad
        case Parsed(items, rest') => Parsed([v] + items, rest')
  }

  /** The members of a non-empty object, added to those already read. */
  function ParseMembers(t0: Text, before: seq<Entry<Value>>): (r: Parsed<seq<Entry<Value>>>)
    ensures r.Parsed? ==> |r.rest| < |t0|
    decreases |t0|, 1
  {
    var t := Skip(t0);
    if t == [] || t[0] != QUOTE then Bad
    else match ParseChars(t[1..])
      case Bad => Bad
      case Parsed(key, afterKey) =>
        var c := Skip(afterKey);
        if c == [] || c[0] != COLON then Bad
        else match ParseValue(c[1..])
          case Bad => Bad
          case Parsed(v, rest) =>
            var u := Skip(rest);
            var members := Put(before, Entry(key, v));
            if u == [] then Bad
            else if u[0] == 125 then Parsed(members, u[1..])
            else if u[0] != COMMA then Bad
            else ParseMembers(u[1..], members)
  }

  datatype ParseResult = ParseOk(value: Value) | ParseError

  /** `JSON.parse`: one value with nothing but white space after it. */
  function Parse(t: Text): ParseResult {
    match ParseValue(t)
    case Bad => ParseError
    case Parsed(v, rest) => if Skip(rest) == [] then ParseOk(v) else ParseError
  }
}
