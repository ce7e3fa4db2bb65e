/**
 * Tailing an append-only log: `readDelta` and the offset the event stream threads
 * through it. The file is a byte string, text is a sequence of Unicode scalar
 * values, and decoding replaces malformed bytes as the Encoding standard does.
 */
module LogTail {
  import opened Wrappers
  import opened Framing

  type Scalar = x: int | 0 <= x <= 0x10FFFF && !(0xD800 <= x <= 0xDFFF)
  type Text = seq<Scalar>

  const NEWLINE: Scalar := 10
  const REPLACEMENT: Scalar := 0xFFFD

  // ---- UTF-8 (section 3 of RFC 3629) ----

  /** The last `6 * n` bits of a value in continuation bytes. */
  function Continuations(c: nat, n: nat): (r: Bytes)
    ensures |r| == n && forall k :: 0 <= k < n ==> r[k] != 10
  {
    if n == 0 then [] else Continuations(c / 64, n - 1) + [(0x80 + c % 64) as Byte]
  }

  function EncodeScalar(c: Scalar): (r: Bytes)
    ensures 1 <= |r| <= 4
  {
    if c < 0x80 then [c as Byte]
    else if c < 0x800 then [(0xC0 + c / 64) as Byte] + Continuations(c, 1)
    else if c < 0x10000 then [(0xE0 + c / 64 / 64) as Byte] + Continuations(c, 2)
    else [(0xF0 + c / 64 / 64 / 64) as Byte] + Continuations(c, 3)
  }

  function Encode(t: Text): Bytes {
    if t == [] then [] else EncodeScalar(t[0]) + Encode(t[1..])
  }

  predicate IsContinuation(b: Byte) { 0x80 <= b <= 0xBF }

  /** The length of the sequence a lead byte starts; 0 for a byte that starts none. */
  function LengthFrom(lead: Byte): nat {
    if 0xC2 <= lead <= 0xDF then 2
    else if 0xE0 <= lead <= 0xEF then 3
    else if 0xF0 <= lead <= 0xF4 then 4
    else 0
  }

  /** The second byte is one the lead byte allows: no overlong form, surrogate or value out of range. */
  predicate IsSecond(lead: Byte, b: Byte) {
    && IsContinuation(b)
    && (lead == 0xE0 ==> b >= 0xA0) && (lead == 0xED ==> b <= 0x9F)
    && (lead == 0xF0 ==> b >= 0x90) && (lead == 0xF4 ==> b <= 0x8F)
  }

  /** The first scalar value and the number of bytes it takes; a malformed start is replaced. */
  function DecodeHead(b: Bytes): (r: (Scalar, nat))
    requires b != []
    ensures 1 <= r.1 <= |b|
    ensures r.0 == NEWLINE <==> b[0] == 10
  {
    var n := LengthFrom(b[0]);
    if b[0] < 0x80 then (b[0] as Scalar, 1)
    else if n == 0 || |b| < 2 || !IsSecond(b[0], b[1]) then (REPLACEMENT, 1)
    else if n == 2 then ((b[0] as int - 0xC0) * 64 + (b[1] as int - 0x80), 2)
    else if |b| < 3 || !IsContinuation(b[2]) then (REPLACEMENT, 2)
    else if n == 3 then ((b[0] as int - 0xE0) * 4096 + (b[1] as int - 0x80) * 64 + (b[2] as int - 0x80), 3)
    else if |b| < 4 || !IsContinuation(b[3]) then (REPLACEMENT, 3)
    else
      ((b[0] as int - 0xF0) * 262144 + (b[1] as int - 0x80) * 4096
       + (b[2] as int - 0x80) * 64 + (b[3] as int - 0x80), 4)
  }

  function Decode(b: Bytes): Text {
    if b == [] then [] else [DecodeHead(b).0] + Decode(b[DecodeHead(b).1..])
  }

  lemma TwoBytes(c: Scalar, b: Bytes)
    requires 0x80 <= c < 0x800 && |b| >= 2
    requires b[0] as int == 0xC0 + c / 64 && b[1] as int == 0x80 + c % 64
    ensures DecodeHead(b) == (c, 2)
  {
  }

  lemma ThreeBytes(c: Scalar, b: Bytes)
    requires 0x800 <= c < 0x10000 && |b| >= 3
    requires b[0] as int == 0xE0 + c / 64 / 64 && b[1] as int == 0x80 + c / 64 % 64 && b[2] as int == 0x80 + c % 64
    ensures DecodeHead(b) == (c, 3)
  {
    assert LengthFrom(b[0]) == 3;
    assert IsSecond(b[0], b[1]);
  }

  lemma FourBytes(c: Scalar, b: Bytes)
    requires 0x10000 <= c && |b| >= 4
    requires b[0] as int == 0xF0 + c / 64 / 64 / 64 && b[1] as int == 0x80 + c / 64 / 64 % 64
    requires b[2] as int == 0x80 + c / 64 % 64 && b[3] as int == 0x80 + c % 64
    ensures DecodeHead(b) == (c, 4)
  {
    assert LengthFrom(b[0]) == 4;
    assert IsSecond(b[0], b[1]);
  }

  lemma HeadRoundTrip(c: Scalar, rest: Bytes)
    ensures DecodeHead(EncodeScalar(c) + rest) == (c, |EncodeScalar(c)|)
  {
    var b := EncodeScalar(c) + rest;
    assert Continuations(c, 1) == [(0x80 + c % 64) as Byte];
    assert Continuations(c, 2) == [(0x80 + c / 64 % 64) as Byte, (0x80 + c % 64) as Byte];
    assert Continuations(c / 64, 2) == [(0x80 + c / 64 / 64 % 64) as Byte, (0x80 + c / 64 % 64) as Byte];
    if 0x80 <= c < 0x800 {
      TwoBytes(c, b);
    } else if 0x800 <= c < 0x10000 {
      ThreeBytes(c, b);
    } else if 0x10000 <= c {
      FourBytes(c, b);
    }
  }

  /** Well-formed text decodes to itself, whatever follows it. */
  lemma {:induction false} DecodeAfterText(t: Text, rest: Bytes)
    ensures Decode(Encode(t) + rest) == t + Decode(rest)
  {
    if t == [] {
      assert Encode(t) + rest == rest;
    } else {
      var more := Encode(t[1..]) + rest;
      assert Encode(t) + rest == EncodeScalar(t[0]) + more;
      HeadRoundTrip(t[0], more);
      assert (EncodeScalar(t[0]) + more)[|EncodeScalar(t[0])|..] == more;
      DecodeAfterText(t[1..], rest);
      assert t + Decode(rest) == [t[0]] + (t[1..] + Decode(rest));
    }
  }

  /** Bytes without a newline decode to text without one, however malformed they are. */
  lemma {:induction false} NoNewlineDecoded(b: Bytes)
    requires 10 !in b
    ensures NEWLINE !in Decode(b)
  {
    if b != [] {
      NoNewlineDecoded(b[DecodeHead(b).1..]);
    }
  }

  lemma HeadBeforeNewline(x: Bytes, y: Bytes)
    requires x != []
    ensures DecodeHead(x + [10] + y) == DecodeHead(x)
  {
    var b := x + [10] + y;
    assert forall k :: 0 <= k < |x| ==> b[k] == x[k];
    assert b[|x|] == 10;
  }

  /** No malformed sequence swallows a newline, so any bytes can be decoded line by line. */
  lemma {:induction false} DecodeBeforeNewline(x: Bytes, y: Bytes)
    ensures Decode(x + [10] + y) == Decode(x) + [NEWLINE] + Decode(y)
    decreases |x|
  {
    var b := x + [10] + y;
    if x == [] {
      assert b[1..] == y;
    } else {
      var n := DecodeHead(x).1;
      HeadBeforeNewline(x, y);
      assert b[n..] == x[n..] + [10] + y;
      DecodeBeforeNewline(x[n..], y);
    }
  }

  lemma {:induction false} EncodeConcat(a: Text, b: Text)
    ensures Encode(a + b) == Encode(a) + Encode(b)
  {
    if a == [] {
      assert a + b == b;
    } else {
      assert (a + b)[1..] == a[1..] + b;
      EncodeConcat(a[1..], b);
    }
  }

  // ---- Lines ----

  /** `split("\\n")`. */
  function Split(t: Text): seq<Text> {
    if NEWLINE !in t then [t]
    else
      var i := IndexOf(t);
      [t[..i]] + Split(t[i + 1..])
  }

  function IndexOf(t: Text): (i: nat)
    requires NEWLINE in t
    ensures i < |t| && t[i] == NEWLINE && NEWLINE !in t[..i]
  {
    if t[0] == NEWLINE then 0 else 1 + IndexOf(t[1..])
  }

  function LastIndexOf(t: Text): (i: int)
    ensures -1 <= i < |t| && (i == -1 <==> NEWLINE !in t)
    ensures i >= 0 ==> t[i] == NEWLINE && forall k :: i < k < |t| ==> t[k] != NEWLINE
  {
    if t == [] then -1
    else if t[|t| - 1] == NEWLINE then |t| - 1
    else LastIndexOf(t[..|t| - 1])
  }

  /** What `trim` removes. */
  predicate IsSpace(c: Scalar) {
    || 9 <= c <= 13 || c == 0x20 || c == 0xA0 || c == 0x1680 || 0x2000 <= c <= 0x200A
    || c == 0x2028 || c == 0x2029 || c == 0x202F || c == 0x205F || c == 0x3000 || c == 0xFEFF
  }

  predicate IsBlank(line: Text) {
    forall i :: 0 <= i < |line| ==> IsSpace(line[i])
  }

  function NonBlank(lines: seq<Text>): seq<Text> {
    if lines == [] then [] else (if IsBlank(lines[0]) then [] else [lines[0]]) + NonBlank(lines[1..])
  }

  lemma {:induction false} SplitConcat(a: Text, b: Text)
    ensures Split(a + [NEWLINE] + b) == Split(a) + Split(b)
  {
    var t := a + [NEWLINE] + b;
    assert t[|a|] == NEWLINE;
    if NEWLINE in a {
      var i := IndexOf(a);
      SameIndex(a, [NEWLINE] + b);
      assert t == a + ([NEWLINE] + b);
      assert t[i + 1..] == a[i + 1..] + [NEWLINE] + b && t[..i] == a[..i];
      SplitConcat(a[i + 1..], b);
    } else {
      FirstIndex(a, b);
      assert t[..|a|] == a && t[|a| + 1..] == b;
    }
  }

  lemma {:induction false} SameIndex(a: Text, b: Text)
    requires NEWLINE in a
    ensures NEWLINE in a + b && IndexOf(a + b) == IndexOf(a)
  {
    assert (a + b)[IndexOf(a)] == NEWLINE;
    if a[0] != NEWLINE {
      assert (a + b)[1..] == a[1..] + b;
      SameIndex(a[1..], b);
    }
  }

  lemma {:induction false} FirstIndex(a: Text, b: Text)
    requires NEWLINE !in a
    ensures NEWLINE in a + [NEWLINE] + b && IndexOf(a + [NEWLINE] + b) == |a|
  {
    assert (a + [NEWLINE] + b)[|a|] == NEWLINE;
    if a != [] {
      assert (a + [NEWLINE] + b)[1..] == a[1..] + [NEWLINE] + b;
      FirstIndex(a[1..], b);
    }
  }

  lemma {:induction false} NonBlankConcat(a: seq<Text>, b: seq<Text>)
    ensures NonBlank(a + b) == NonBlank(a) + NonBlank(b)
  {
    if a == [] {
      assert a + b == b;
    } else {
      assert (a + b)[1..] == a[1..] + b;
      NonBlankConcat(a[1..], b);
    }
  }

  // ---- Complete lines of a file ----

  /** The end of the last complete line. */
  function Boundary(file: Bytes): (p: nat)
    ensures p <= |file| && (p > 0 ==> file[p - 1] == 10) && forall k :: p <= k < |file| ==> file[k] != 10
  {
    if file == [] || file[|file| - 1] == 10 then |file| else Boundary(file[..|file| - 1])
  }

  ghost predicate IsUtf8(b: Bytes) {
    exists t :: Encode(t) == b
  }

  /** The complete lines are well-formed; a line still being written need not be. */
  ghost predicate HasUtf8Lines(file: Bytes) {
    IsUtf8(file[..Boundary(file)])
  }

  /** Complete lines: nothing, or text that ends with a newline. */
  predicate AreLines(t: Text) {
    t == [] || t[|t| - 1] == NEWLINE
  }

  /** The non-blank lines of a text of complete lines. */
  function NonBlankLines(t: Text): seq<Text> {
    if t == [] then [] else NonBlank(Split(t[..|t| - 1]))
  }

  /** The non-blank complete lines of a file. */
  function LinesOf(file: Bytes): seq<Text> {
    NonBlankLines(Decode(file[..Boundary(file)]))
  }

  // ---- What the lines of a text are ----

  function JoinLines(parts: seq<Text>): Text
    requires parts != []
  {
    if |parts| == 1 then parts[0] else parts[0] + [NEWLINE] + JoinLines(parts[1..])
  }

  /** The pieces contain no newline and give the text back when they are joined by newlines. */
  lemma {:induction false} SplitJoins(t: Text)
    ensures Split(t) != [] && JoinLines(Split(t)) == t
    ensures forall i :: 0 <= i < |Split(t)| ==> NEWLINE !in Split(t)[i]
  {
    if NEWLINE in t {
      var i := IndexOf(t);
      SplitJoins(t[i + 1..]);
      assert t == t[..i] + [NEWLINE] + t[i + 1..];
      assert Split(t)[1..] == Split(t[i + 1..]);
    }
  }

  /** Where a line of the text begins and where its newline stands. */
  datatype Span = Span(from: nat, to: nat)

  /** A line that is complete and has something in it besides white space. */
  ghost predicate IsLine(t: Text, s: Span) {
    && s.from <= s.to < |t| && t[s.to] == NEWLINE && (s.from == 0 || t[s.from - 1] == NEWLINE)
    && (forall k :: s.from <= k < s.to ==> t[k] != NEWLINE)
    && (exists k :: s.from <= k < s.to && !IsSpace(t[k]))
  }

  ghost predicate Ascend(spans: seq<Span>) {
    forall i, j :: 0 <= i < j < |spans| ==> spans[i].to < spans[j].from
  }

  /** The spans are all such lines, one after another, and the texts are what stands there. */
  ghost predicate AreLinesAt(t: Text, spans: seq<Span>, lines: seq<Text>) {
    && |spans| == |lines| && Ascend(spans)
    && (forall i :: 0 <= i < |spans| ==> IsLine(t, spans[i]) && lines[i] == t[spans[i].from..spans[i].to])
    && (forall s :: IsLine(t, s) ==> s in spans)
  }

  /** The texts are the complete lines that are not blank, each once and in order. */
  ghost predicate AreTheLines(t: Text, lines: seq<Text>) {
    exists spans :: AreLinesAt(t, spans, lines)
  }

  function Shifted(spans: seq<Span>, n: nat): (r: seq<Span>)
    ensures |r| == |spans|
    ensures forall i :: 0 <= i < |r| ==> r[i] == Span(spans[i].from + n, spans[i].to + n)
  {
    seq(|spans|, i requires 0 <= i < |spans| => Span(spans[i].from + n, spans[i].to + n))
  }

  lemma LineIsBelow(t: Text, n: nat, s: Span)
    requires n <= |t| && (n > 0 ==> t[n - 1] == NEWLINE)
    ensures IsLine(t, Span(s.from + n, s.to + n)) <==> IsLine(t[n..], s)
  {
    if IsLine(t, Span(s.from + n, s.to + n)) {
      var k :| s.from + n <= k < s.to + n && !IsSpace(t[k]);
      assert !IsSpace(t[n..][k - n]);
      forall k | s.from <= k < s.to ensures t[n..][k] != NEWLINE {
        assert t[k + n] != NEWLINE;
      }
    }
    if IsLine(t[n..], s) {
      var k :| s.from <= k < s.to && !IsSpace(t[n..][k]);
      assert !IsSpace(t[k + n]);
      forall k | s.from + n <= k < s.to + n ensures t[k] != NEWLINE {
        assert t[n..][k - n] != NEWLINE;
      }
    }
  }

  /** The first `n` scalars are one line with its newline. */
  predicate IsFirstLine(t: Text, n: nat) {
    0 < n <= |t| && t[n - 1] == NEWLINE && NEWLINE !in t[..n - 1]
  }

  /** A line lies in the first `n` scalars, which are one line, or in what follows. */
  lemma LineIsFirstOrLater(t: Text, n: nat, s: Span)
    requires IsFirstLine(t, n) && IsLine(t, s)
    ensures (s.from == 0 && s.to == n - 1) || s.from >= n
  {
    assert forall k :: 0 <= k < n - 1 ==> t[k] == t[..n - 1][k];
  }

  lemma FirstIsLine(t: Text, n: nat)
    requires IsFirstLine(t, n)
    ensures IsLine(t, Span(0, n - 1)) <==> !IsBlank(t[..n - 1])
  {
    var first := t[..n - 1];
    assert forall k :: 0 <= k < n - 1 ==> t[k] == first[k];
    if !IsBlank(first) {
      var k :| 0 <= k < |first| && !IsSpace(first[k]);
      assert !IsSpace(t[k]);
    }
  }

  lemma LaterLinesStay(t: Text, n: nat, spans: seq<Span>, lines: seq<Text>, i: nat)
    requires IsFirstLine(t, n) && AreLinesAt(t[n..], spans, lines) && i < |spans|
    ensures IsLine(t, Shifted(spans, n)[i])
    ensures lines[i] == t[Shifted(spans, n)[i].from..Shifted(spans, n)[i].to]
  {
    LineIsBelow(t, n, spans[i]);
    assert t[n..][spans[i].from..spans[i].to] == t[spans[i].from + n..spans[i].to + n];
  }

  lemma NoLineIsMissed(t: Text, n: nat, spans: seq<Span>, lines: seq<Text>, s: Span)
    requires IsFirstLine(t, n) && AreLinesAt(t[n..], spans, lines) && IsLine(t, s) && s != Span(0, n - 1)
    ensures s in Shifted(spans, n)
  {
    LineIsFirstOrLater(t, n, s);
    var below := Span(s.from - n, s.to - n);
    LineIsBelow(t, n, below);
    InShifted(spans, n, below, s);
  }

  lemma InShifted(spans: seq<Span>, n: nat, below: Span, s: Span)
    requires below in spans && s == Span(below.from + n, below.to + n)
    ensures s in Shifted(spans, n)
  {
    var i :| 0 <= i < |spans| && spans[i] == below;
    assert Shifted(spans, n)[i] == s;
  }

  /** The lines after the first, in the text with it. */
  lemma LaterLines(t: Text, n: nat, spans: seq<Span>, lines: seq<Text>) returns (later: seq<Span>)
    requires IsFirstLine(t, n) && AreLinesAt(t[n..], spans, lines)
    ensures AreLaterLines(t, n, later, lines)
  {
    later := Shifted(spans, n);
    forall i | 0 <= i < |later| ensures IsLine(t, later[i]) && lines[i] == t[later[i].from..later[i].to] {
      LaterLinesStay(t, n, spans, lines, i);
    }
    forall s | IsLine(t, s) && s != Span(0, n - 1) ensures s in later {
      NoLineIsMissed(t, n, spans, lines, s);
    }
  }

  ghost predicate AreLaterLines(t: Text, n: nat, later: seq<Span>, lines: seq<Text>)
    requires n > 0
  {
    && |later| == |lines| && Ascend(later) && (forall i :: 0 <= i < |later| ==> later[i].from >= n)
    && (forall i :: 0 <= i < |later| ==> IsLine(t, later[i]) && lines[i] == t[later[i].from..later[i].to])
    && (forall s :: IsLine(t, s) && s != Span(0, n - 1) ==> s in later)
  }

  lemma WithoutFirst(t: Text, n: nat, later: seq<Span>, lines: seq<Text>)
    requires n > 0 && AreLaterLines(t, n, later, lines) && !IsLine(t, Span(0, n - 1))
    ensures AreLinesAt(t, later, lines)
  {
  }

  lemma WithFirst(t: Text, n: nat, later: seq<Span>, lines: seq<Text>)
    requires 0 < n <= |t| && AreLaterLines(t, n, later, lines) && IsLine(t, Span(0, n - 1))
    ensures AreLinesAt(t, [Span(0, n - 1)] + later, [t[..n - 1]] + lines)
  {
    var spans, texts := [Span(0, n - 1)] + later, [t[..n - 1]] + lines;
    forall i | 0 <= i < |spans| ensures IsLine(t, spans[i]) && texts[i] == t[spans[i].from..spans[i].to] {
      assert i > 0 ==> spans[i] == later[i - 1] && texts[i] == lines[i - 1];
    }
    forall s | IsLine(t, s) ensures s in spans {
      assert s == Span(0, n - 1) || s in later;
    }
  }

  /** One line more in front, unless it is blank. */
  lemma LinesPrepend(t: Text, n: nat, lines: seq<Text>, longer: seq<Text>)
    requires IsFirstLine(t, n) && AreTheLines(t[n..], lines)
    requires longer == (if IsBlank(t[..n - 1]) then [] else [t[..n - 1]]) + lines
    ensures AreTheLines(t, longer)
  {
    var spans :| AreLinesAt(t[n..], spans, lines);
    var later := LaterLines(t, n, spans, lines);
    FirstIsLine(t, n);
    if IsBlank(t[..n - 1]) {
      assert longer == lines;
      WithoutFirst(t, n, later, lines);
    } else {
      WithFirst(t, n, later, lines);
    }
  }

  /** The first line of a text of complete lines and the others. */
  lemma FirstOfLines(t: Text, n: nat)
    requires AreLines(t) && IsFirstLine(t, n)
    ensures AreLines(t[n..])
    ensures NonBlankLines(t) == (if IsBlank(t[..n - 1]) then [] else [t[..n - 1]]) + NonBlankLines(t[n..])
  {
    var first, body := t[..n - 1], t[..|t| - 1];
    if n == |t| {
      assert body == first && Split(body) == [first];
      assert NonBlank([first][1..]) == [];
    } else {
      var rest := t[n..|t| - 1];
      assert t[n..][..|t[n..]| - 1] == rest;
      assert body == first + [NEWLINE] + rest;
      SplitConcat(first, rest);
      assert Split(first) == [first];
      assert ([first] + Split(rest))[1..] == Split(rest);
    }
  }

  /** The lines the source filters out of the split text are the lines of the text. */
  lemma {:induction false} NonBlankLinesAre(t: Text)
    requires AreLines(t)
    ensures AreTheLines(t, NonBlankLines(t))
    decreases |t|
  {
    if t == [] {
      assert AreLinesAt(t, [], []);
    } else {
      assert t[|t| - 1] == NEWLINE;
      var n := IndexOf(t) + 1;
      FirstOfLines(t, n);
      NonBlankLinesAre(t[n..]);
      LinesPrepend(t, n, NonBlankLines(t[n..]), NonBlankLines(t));
    }
  }

  ghost predicate AreProper(spans: seq<Span>) {
    Ascend(spans) && forall i :: 0 <= i < |spans| ==> spans[i].from <= spans[i].to
  }

  lemma SameFirstSpan(a: seq<Span>, b: seq<Span>)
    requires AreProper(a) && AreProper(b) && a != [] && b != [] && a[0] in b && b[0] in a
    ensures a[0] == b[0]
  {
    var i :| 0 <= i < |b| && b[i] == a[0];
    var j :| 0 <= j < |a| && a[j] == b[0];
  }

  lemma TailSpans(a: seq<Span>, s: Span)
    requires a != [] && AreProper(a)
    ensures s in a[1..] <==> s in a && s != a[0]
  {
    if s in a && s != a[0] {
      var i :| 0 <= i < |a| && a[i] == s;
      assert a[1..][i - 1] == s;
    }
    if s in a[1..] {
      var i :| 0 <= i < |a[1..]| && a[1..][i] == s;
      assert a[i + 1] == s && a[0].to < a[i + 1].from;
    }
  }

  lemma {:induction false} SameSpans(a: seq<Span>, b: seq<Span>)
    requires AreProper(a) && AreProper(b) && forall s :: s in a <==> s in b
    ensures a == b
  {
    EmptySpans(a, b);
    if a != [] {
      EmptySpans(b, a);
      var x, y := a[1..], b[1..];
      assert a[0] in b && b[0] in a;
      SameFirstSpan(a, b);
      forall s ensures s in x <==> s in y {
        TailSpans(a, s);
        TailSpans(b, s);
      }
      SameSpans(x, y);
      assert a == [a[0]] + x && b == [b[0]] + y;
    }
  }

  lemma EmptySpans(a: seq<Span>, b: seq<Span>)
    requires forall s :: s in b ==> s in a
    ensures b != [] ==> a != []
  {
    if b != [] {
      assert b[0] in a;
    }
  }

  /** A text has one list of lines. */
  lemma TheLinesAreUnique(t: Text, a: seq<Text>, b: seq<Text>)
    requires AreTheLines(t, a) && AreTheLines(t, b)
    ensures a == b
  {
    var x :| AreLinesAt(t, x, a);
    var y :| AreLinesAt(t, y, b);
    forall s ensures s in x <==> s in y {
      if s in x { assert IsLine(t, s); }
      if s in y { assert IsLine(t, s); }
    }
    SameSpans(x, y);
  }

  /** The lines are those of the complete part of the file, decoded. */
  ghost predicate AreTheLinesOf(file: Bytes, lines: seq<Text>) {
    AreTheLines(Decode(file[..Boundary(file)]), lines)
  }

  lemma LinesOfAre(file: Bytes)
    ensures AreTheLinesOf(file, LinesOf(file))
  {
    DecodedLines(file[..Boundary(file)]);
    NonBlankLinesAre(Decode(file[..Boundary(file)]));
  }

  lemma CutAfter(first: Bytes, more: Bytes, k: nat)
    requires |first| <= k <= |first| + |more|
    ensures (first + more)[..k] == first + more[..k - |first|] && (first + more)[k..] == more[k - |first|..]
  {
  }

  /** Text can be cut after any newline byte. */
  lemma {:induction false} CutText(t: Text, k: nat) returns (a: Text, b: Text)
    requires k <= |Encode(t)| && (k > 0 ==> Encode(t)[k - 1] == 10)
    ensures t == a + b && Encode(a) == Encode(t)[..k] && Encode(b) == Encode(t)[k..]
    ensures AreLines(a)
  {
    if k == 0 {
      a, b := [], t;
    } else {
      var first := EncodeScalar(t[0]);
      if k <= |first| {
        CutFirst(t, k);
        a, b := t[..1], t[1..];
      } else {
        var m := k - |first|;
        CutLater(t, k, m);
        a, b := CutText(t[1..], m);
        PrependScalar(t[0], a);
        a := [t[0]] + a;
      }
    }
  }

  lemma CutFirst(t: Text, k: nat)
    requires t != [] && 0 < k <= |EncodeScalar(t[0])| && Encode(t)[k - 1] == 10
    ensures Encode(t[..1]) == Encode(t)[..k] && Encode(t[1..]) == Encode(t)[k..] && AreLines(t[..1])
  {
    CutAfter(EncodeScalar(t[0]), Encode(t[1..]), |EncodeScalar(t[0])|);
    assert t[..1] == [t[0]] + [];
  }

  lemma CutLater(t: Text, k: nat, m: nat)
    requires t != [] && k == |EncodeScalar(t[0])| + m <= |Encode(t)| && 0 < m && Encode(t)[k - 1] == 10
    ensures m <= |Encode(t[1..])| && Encode(t[1..])[m - 1] == 10
    ensures Encode(t)[..k] == EncodeScalar(t[0]) + Encode(t[1..])[..m] && Encode(t)[k..] == Encode(t[1..])[m..]
  {
    CutAfter(EncodeScalar(t[0]), Encode(t[1..]), k);
  }

  lemma PrependScalar(c: Scalar, t: Text)
    ensures Encode([c] + t) == EncodeScalar(c) + Encode(t)
    ensures AreLines(t) && t != [] ==> AreLines([c] + t)
  {
  }

  /** A prefix of a UTF-8 file, cut anywhere, has well-formed complete lines. */
  lemma PrefixHasUtf8Lines(t: Text, file: Bytes)
    requires file <= Encode(t)
    ensures HasUtf8Lines(file)
  {
    var p := Boundary(file);
    var a, b := CutText(t, p);
    assert file[..p] == Encode(t)[..p];
  }

  // ---- The delta ----

  lemma LinesOfBoth(a: Text, b: Text)
    requires AreLines(a) && AreLines(b)
    ensures NonBlankLines(a + b) == NonBlankLines(a) + NonBlankLines(b)
  {
    if a == [] {
      assert a + b == b;
    } else if b == [] {
      assert a + b == a;
    } else {
      var c, d := a[..|a| - 1], b[..|b| - 1];
      assert (a + b)[..|a + b| - 1] == c + [NEWLINE] + d;
      SplitConcat(c, d);
      NonBlankConcat(Split(c), Split(d));
    }
  }

  /** Nothing, or bytes that end with a newline. */
  predicate AreLineBytes(b: Bytes) {
    b == [] || b[|b| - 1] == 10
  }

  lemma DecodedLines(lines: Bytes)
    requires AreLineBytes(lines)
    ensures AreLines(Decode(lines)) && (Decode(lines) == [] <==> lines == [])
  {
    if lines != [] {
      var x := lines[..|lines| - 1];
      assert lines == x + [10] + [];
      DecodeBeforeNewline(x, []);
      assert Decode(lines) == Decode(x) + [NEWLINE];
    }
  }

  lemma DecodeAfterLines(lines: Bytes, rest: Bytes)
    requires AreLineBytes(lines)
    ensures Decode(lines + rest) == Decode(lines) + Decode(rest)
  {
    if lines == [] {
      assert lines + rest == rest;
    } else {
      var x := lines[..|lines| - 1];
      assert lines + rest == x + [10] + rest && lines == x + [10] + [];
      DecodeBeforeNewline(x, rest);
      DecodeBeforeNewline(x, []);
      assert Decode(lines) == Decode(x) + [NEWLINE];
    }
  }

  /** The number of bytes of complete lines, counted without their last newline. */
  lemma BytesOfLines(t: Text)
    requires t != [] && AreLines(t)
    ensures |Encode(t)| == |Encode(t[..|t| - 1])| + 1
  {
    var body := t[..|t| - 1];
    EncodeConcat(body, [NEWLINE]);
    assert t == body + [NEWLINE];
    NewlineEncoded([NEWLINE]);
  }

  lemma NewlineEncoded(t: Text)
    requires t == [NEWLINE]
    ensures Encode(t) == [10]
  {
    assert Encode(t[1..]) == [];
  }

  lemma CutBytes(b: Bytes, p: nat, q: nat)
    requires p <= q <= |b|
    ensures b[..q] == b[..p] + b[p..q] && b[p..] == b[p..q] + b[q..]
  {
  }

  /** The bytes of the lines completed since a file was seen. */
  function NewLines(seen: Bytes, file: Bytes): (b: Bytes)
    requires seen <= file
    ensures AreLineBytes(b) && |b| == Boundary(file) - Boundary(seen)
  {
    file[Boundary(seen)..Boundary(file)]
  }

  lemma LinesGrow(seen: Bytes, file: Bytes)
    requires seen <= file
    ensures LinesOf(file) == LinesOf(seen) + NonBlankLines(Decode(NewLines(seen, file)))
  {
    var p, q := Boundary(seen), Boundary(file);
    CutBytes(file, p, q);
    assert file[..p] == seen[..p];
    DecodedLines(file[..p]);
    DecodedLines(NewLines(seen, file));
    DecodeAfterLines(file[..p], NewLines(seen, file));
    LinesOfBoth(Decode(file[..p]), Decode(NewLines(seen, file)));
  }

  /** A chunk of complete lines and then text without a newline. */
  lemma ChunkOfLines(chunk: Text, t: Text, rest: Text)
    requires chunk == t + rest && AreLines(t) && NEWLINE !in rest
    ensures LastIndexOf(chunk) == |t| - 1 && (t != [] ==> chunk[..|t| - 1] == t[..|t| - 1])
  {
    LastIndexIs(chunk, |t| - 1);
  }

  lemma ChunkOfBytes(lines: Bytes, rest: Bytes, bytes: Bytes, t: Text)
    requires bytes == lines + rest && AreLineBytes(lines) && 10 !in rest && t == Decode(lines)
    ensures LastIndexOf(Decode(bytes)) == |t| - 1
    ensures t != [] ==> Decode(bytes)[..|t| - 1] == t[..|t| - 1]
  {
    DecodedLines(lines);
    DecodeAfterLines(lines, rest);
    NoNewlineDecoded(rest);
    ChunkOfLines(Decode(bytes), t, Decode(rest));
  }

  lemma LastIndexIs(t: Text, i: int)
    requires -1 <= i < |t| && (i >= 0 ==> t[i] == NEWLINE) && forall k :: i < k < |t| ==> t[k] != NEWLINE
    ensures LastIndexOf(t) == i
  {
  }

  /** Every piece the decoder replaces is three bytes long, as U+FFFD is. */
  predicate ReplacesOnlyThrees(b: Bytes) {
    b == [] || ((DecodeHead(b).0 == REPLACEMENT ==> DecodeHead(b).1 == 3) && ReplacesOnlyThrees(b[DecodeHead(b).1..]))
  }

  lemma HeadNeverShrinks(b: Bytes)
    requires b != []
    ensures |EncodeScalar(DecodeHead(b).0)| >= DecodeHead(b).1
    ensures |EncodeScalar(DecodeHead(b).0)| == DecodeHead(b).1
       <==> (DecodeHead(b).0 == REPLACEMENT ==> DecodeHead(b).1 == 3)
  {
  }

  /**
   * Decoding and encoding again never loses a byte, and keeps the number of bytes
   * exactly when every replaced piece is three bytes long.
   */
  lemma {:induction false} DecodingNeverShrinks(b: Bytes)
    ensures |Encode(Decode(b))| >= |b|
    ensures |Encode(Decode(b))| == |b| <==> ReplacesOnlyThrees(b)
  {
    if b != [] {
      var rest := b[DecodeHead(b).1..];
      HeadNeverShrinks(b);
      DecodingNeverShrinks(rest);
      assert Decode(b)[1..] == Decode(rest);
    }
  }

  /**
   * What a read of this text is to deliver, and by how many bytes it moves the
   * offset: the lines up to the last newline, and their bytes when encoded.
   */
  ghost predicate IsDelta(chunk: Text, lines: seq<Text>, advance: int) {
    exists n: nat ::
      && n <= |chunk| && AreLines(chunk[..n]) && NEWLINE !in chunk[n..]
      && AreTheLines(chunk[..n], lines) && advance == |Encode(chunk[..n])|
  }

  lemma NothingComplete(chunk: Text)
    requires NEWLINE !in chunk
    ensures IsDelta(chunk, [], 0)
  {
    assert AreLinesAt(chunk[..0], [], []);
    assert chunk[0..] == chunk && AreTheLines(chunk[..0], []);
  }

  lemma CompleteLines(chunk: Text, last: nat)
    requires last < |chunk| && chunk[last] == NEWLINE && NEWLINE !in chunk[last + 1..]
    ensures IsDelta(chunk, NonBlank(Split(chunk[..last])), |Encode(chunk[..last])| + 1)
  {
    var t := chunk[..last + 1];
    assert t[..|t| - 1] == chunk[..last] && t[|t| - 1] == NEWLINE;
    NonBlankLinesAre(t);
    BytesOfLines(t);
  }

  /** The read starts at the end of the complete lines of what was `seen`, and the file has only grown since. */
  ghost predicate Follows(file: Option<Bytes>, offset: nat, seen: Bytes) {
    offset == Boundary(seen) && file.Some? && seen <= file.value
  }

  /** The lines of the delta and the next offset, as they are computed from the file. */
  ghost predicate IsRead(file: Bytes, offset: nat, lines: seq<Text>, nextOffset: nat) {
    if |file| <= offset then lines == [] && nextOffset == offset
    else
      var chunk := Decode(file[offset..]);
      var last := LastIndexOf(chunk);
      if last == -1 then lines == [] && nextOffset == offset
      else lines == NonBlank(Split(chunk[..last])) && nextOffset == offset + |Encode(chunk[..last])| + 1
  }

  /** A read from the end of the complete lines yields the lines completed since, and moves by their bytes. */
  lemma ReadFromBoundary(seen: Bytes, file: Bytes, lines: seq<Text>, nextOffset: nat)
    requires seen <= file && IsRead(file, Boundary(seen), lines, nextOffset)
    ensures var t := Decode(NewLines(seen, file));
            lines == NonBlankLines(t) && nextOffset == Boundary(seen) + |Encode(t)|
  {
    var t := Decode(NewLines(seen, file));
    DecodedLines(NewLines(seen, file));
    if |file| > Boundary(seen) {
      ChunkAtBoundary(seen, file, t);
      if t != [] {
        BytesOfLines(t);
      }
    }
  }

  /** The text read from the end of the complete lines begins with the lines completed since. */
  lemma ChunkAtBoundary(seen: Bytes, file: Bytes, t: Text)
    requires seen <= file && t == Decode(NewLines(seen, file))
    ensures var chunk := Decode(file[Boundary(seen)..]);
            LastIndexOf(chunk) == |t| - 1 && (t != [] ==> chunk[..|t| - 1] == t[..|t| - 1])
  {
    CutBytes(file, Boundary(seen), Boundary(file));
    ChunkOfBytes(NewLines(seen, file), file[Boundary(file)..], file[Boundary(seen)..], t);
  }

  lemma DeltaIsRight(seen: Bytes, file: Bytes, lines: seq<Text>, nextOffset: nat)
    requires seen <= file && IsRead(file, Boundary(seen), lines, nextOffset)
    ensures LinesOf(file) == LinesOf(seen) + lines && AreTheLines(Decode(NewLines(seen, file)), lines)
    ensures nextOffset >= Boundary(file)
    ensures nextOffset == Boundary(file) <==> ReplacesOnlyThrees(NewLines(seen, file))
  {
    var added := NewLines(seen, file);
    ReadFromBoundary(seen, file, lines, nextOffset);
    LinesGrow(seen, file);
    DecodedLines(added);
    DecodingNeverShrinks(added);
    NonBlankLinesAre(Decode(added));
  }

  /**
   * One read. It delivers exactly the non-blank lines completed since, whatever
   * their bytes. The next offset is never short of the end of the complete lines
   * now there, and is that end exactly when every malformed piece in the new lines
   * is three bytes long. A file that is missing or has not grown yields nothing.
   * From any offset the lines are those of the decoded rest of the file.
   */
  method ReadDelta(file: Option<Bytes>, offset: nat, ghost seen: Bytes) returns (lines: seq<Text>, nextOffset: nat)
    ensures file.None? || |file.value| <= offset ==> lines == [] && nextOffset == offset
    ensures file.Some? && |file.value| > offset ==>
              IsDelta(Decode(file.value[offset..]), lines, nextOffset - offset)
    ensures Follows(file, offset, seen) ==>
              && LinesOf(file.value) == LinesOf(seen) + lines && AreTheLines(Decode(NewLines(seen, file.value)), lines)
              && nextOffset >= Boundary(file.value)
              && (nextOffset == Boundary(file.value) <==> ReplacesOnlyThrees(NewLines(seen, file.value)))
  {
    lines, nextOffset := [], offset;
    if file.Some? && |file.value| > offset {
      var buffer := file.value[offset..];
      var chunk := Decode(buffer);
      var lastNL := LastIndexOf(chunk);
      if lastNL == -1 {
        NothingComplete(chunk);
      } else {
        var complete := chunk[..lastNL];
        var advance := |Encode(complete)| + 1;
        lines := NonBlank(Split(complete));
        nextOffset := offset + advance;
        CompleteLines(chunk, lastNL);
      }
    }
    if Follows(file, offset, seen) {
      DeltaIsRight(seen, file.value, lines, nextOffset);
    }
  }

  /** In well-formed lines nothing is replaced but U+FFFD by itself. */
  lemma {:induction false} Utf8ReplacesOnlyThrees(seen: Bytes, file: Bytes)
    requires seen <= file && HasUtf8Lines(file)
    ensures ReplacesOnlyThrees(NewLines(seen, file))
  {
    var p, q := Boundary(seen), Boundary(file);
    var lines := file[..q];
    var whole :| Encode(whole) == lines;
    assert p > 0 ==> lines[p - 1] == 10;
    var a, t := CutText(whole, p);
    assert lines[p..] == NewLines(seen, file);
    DecodeText(t);
    DecodingNeverShrinks(NewLines(seen, file));
  }

  lemma DecodeText(t: Text)
    ensures Decode(Encode(t)) == t
  {
    DecodeAfterText(t, []);
    assert t + Decode([]) == t && Encode(t) + [] == Encode(t);
  }

  // ---- The stream ----

  /** What the last read that succeeded saw; `None` is a read that failed. */
  function LastSeen(contents: seq<Option<Bytes>>): Bytes {
    if contents == [] then []
    else
      var n := |contents| - 1;
      if contents[n].Some? then contents[n].value else LastSeen(contents[..n])
  }

  /** Between reads the file only grows. */
  ghost predicate IsAppendOnly(contents: seq<Option<Bytes>>) {
    forall i :: 0 <= i < |contents| && contents[i].Some? ==> LastSeen(contents[..i]) <= contents[i].value
  }

  /** The lines that the first `n` reads completed have malformed pieces of three bytes only. */
  ghost predicate IsIntact(contents: seq<Option<Bytes>>, n: nat)
    requires n <= |contents| && IsAppendOnly(contents)
  {
    forall i :: 0 <= i < n ==> IsIntactAt(contents, i)
  }

  /** Each of the offsets stands at the end of the last complete line of the file as then read. */
  ghost predicate AreBoundaries(contents: seq<Option<Bytes>>, offsets: seq<nat>) {
    && |offsets| <= |contents|
    && forall i :: 0 <= i < |offsets| ==> offsets[i] == Boundary(LastSeen(contents[..i + 1]))
  }

  /** The `i`-th read completes lines whose malformed pieces are three bytes only, or no lines. */
  ghost predicate IsIntactAt(contents: seq<Option<Bytes>>, i: nat)
    requires i < |contents| && IsAppendOnly(contents)
  {
    contents[i].Some? ==> ReplacesOnlyThrees(NewLines(LastSeen(contents[..i]), contents[i].value))
  }

  lemma LastSeenStep(contents: seq<Option<Bytes>>, i: nat)
    requires i < |contents|
    ensures LastSeen(contents[..i + 1]) == if contents[i].Some? then contents[i].value else LastSeen(contents[..i])
  {
    assert contents[..i + 1][..i] == contents[..i];
  }

  lemma OneMoreRead(contents: seq<Option<Bytes>>, offsets: seq<nat>, i: nat, offset: nat)
    requires i < |contents| && IsAppendOnly(contents) && |offsets| == i
    requires AreBoundaries(contents, offsets) <==> IsIntact(contents, i)
    requires IsIntact(contents, i) ==> (offset == Boundary(LastSeen(contents[..i + 1])) <==> IsIntactAt(contents, i))
    ensures AreBoundaries(contents, offsets + [offset]) <==> IsIntact(contents, i + 1)
    ensures IsIntact(contents, i + 1) <==> IsIntact(contents, i) && IsIntactAt(contents, i)
  {
    BoundariesOfLonger(contents, offsets, i, offset);
    IntactOneMore(contents, i);
  }

  lemma BoundariesOfLonger(contents: seq<Option<Bytes>>, offsets: seq<nat>, i: nat, offset: nat)
    requires i < |contents| && |offsets| == i
    ensures AreBoundaries(contents, offsets + [offset])
       <==> AreBoundaries(contents, offsets) && offset == Boundary(LastSeen(contents[..i + 1]))
  {
    var longer := offsets + [offset];
    assert longer[i] == offset && forall k :: 0 <= k < i ==> longer[k] == offsets[k];
  }

  lemma IntactOneMore(contents: seq<Option<Bytes>>, i: nat)
    requires i < |contents| && IsAppendOnly(contents)
    ensures IsIntact(contents, i + 1) <==> IsIntact(contents, i) && IsIntactAt(contents, i)
  {
  }

  /** A file that is UTF-8 at every read is intact. */
  lemma Utf8IsIntact(contents: seq<Option<Bytes>>)
    requires IsAppendOnly(contents)
    requires forall i :: 0 <= i < |contents| && contents[i].Some? ==> HasUtf8Lines(contents[i].value)
    ensures IsIntact(contents, |contents|)
  {
    forall i | 0 <= i < |contents| ensures IsIntactAt(contents, i) {
      if contents[i].Some? {
        Utf8ReplacesOnlyThrees(LastSeen(contents[..i]), contents[i].value);
      }
    }
  }

  /** The state of one event stream: the offset it threads, and what it has sent. */
  class LogStream {
    var offset: nat
    var sent: seq<Text>

    /** All complete lines of what was seen are sent, and nothing else. */
    ghost predicate IsUpTo(seen: Bytes)
      reads this
    {
      offset == Boundary(seen) && sent == LinesOf(seen)
    }

    constructor ()
      ensures IsUpTo([])
    {
      offset, sent := 0, [];
    }

    /**
     * The watcher's callback: reads the delta, sends its lines, moves the offset.
     * From an up-to-date stream it sends the right lines whatever their bytes, and
     * stays up to date exactly when malformed pieces are three bytes long.
     */
    method Deliver(file: Option<Bytes>, ghost seen: Bytes)
      modifies this
      ensures old(IsUpTo(seen)) && file.None? ==> IsUpTo(seen)
      ensures old(IsUpTo(seen)) && file.Some? && seen <= file.value ==>
                && sent == LinesOf(file.value) && AreTheLinesOf(file.value, sent)
                && (IsUpTo(file.value) <==> ReplacesOnlyThrees(NewLines(seen, file.value)))
    {
      if file.Some? {
        LinesOfAre(file.value);
      }
      var lines, nextOffset := ReadDelta(file, offset, seen);
      sent := sent + lines;
      offset := nextOffset;
    }

    /**
     * For any schedule of appends and reads, the offset stands at the end of the
     * last complete line after every read exactly when the lines are intact; then
     * what has been sent is the non-blank complete lines of the file as last read,
     * each once and in order.
     */
    method Follow(contents: seq<Option<Bytes>>) returns (ghost offsets: seq<nat>)
      modifies this
      ensures |offsets| == |contents| && (contents != [] ==> offset == offsets[|offsets| - 1])
      ensures old(IsUpTo([])) && IsAppendOnly(contents) ==>
                && (AreBoundaries(contents, offsets) <==> IsIntact(contents, |contents|))
                && (IsIntact(contents, |contents|) ==>
                      IsUpTo(LastSeen(contents)) && AreTheLinesOf(LastSeen(contents), sent))
    {
      offsets := [];
      ghost var asPromised := IsUpTo([]) && IsAppendOnly(contents);
      for i := 0 to |contents|
        invariant |offsets| == i && (i > 0 ==> offset == offsets[i - 1])
        invariant asPromised ==> (AreBoundaries(contents, offsets) <==> IsIntact(contents, i))
        invariant asPromised && IsIntact(contents, i) ==> IsUpTo(LastSeen(contents[..i]))
      {
        LastSeenStep(contents, i);
        Deliver(contents[i], LastSeen(contents[..i]));
        if asPromised {
          OneMoreRead(contents, offsets, i, offset);
        }
        offsets := offsets + [offset];
      }
      assert contents[..|contents|] == contents;
      LinesOfAre(LastSeen(contents));
    }
  }

  /** Malformed lines: the byte 0xFF is counted as three, a cut four-byte sequence as it is. */
  lemma {:induction false} MalformedLineIsMiscounted()
    ensures !ReplacesOnlyThrees([0xFF, 10]) && ReplacesOnlyThrees([0xF0, 0x9F, 0x98, 10])
  {
    assert DecodeHead([0xF0, 0x9F, 0x98, 10]) == (REPLACEMENT, 3);
    var rest: Bytes := [0xF0, 0x9F, 0x98, 10][3..];
    assert rest == [10] && DecodeHead(rest) == (NEWLINE, 1);
    assert rest[1..] == [];
  }
}
