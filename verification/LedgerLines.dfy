/** What the lines of a ledger file are, stated on the places of its line breaks. */
module LedgerLines {
  import opened Json
  import opened Ledger

  /** Where a line begins and where it ends. */
  datatype Span = Span(from: nat, to: nat)

  /** A stretch without a line break that is not empty and cannot be made longer. */
  ghost predicate IsLine(t: Text, s: Span) {
    && s.from < s.to <= |t|
    && (s.from == 0 || t[s.from - 1] == '\n' as int) && (s.to == |t| || t[s.to] == '\n' as int)
    && forall k :: s.from <= k < s.to ==> t[k] != '\n' as int
  }

  ghost predicate Ascend(spans: seq<Span>) {
    forall i, j :: 0 <= i < j < |spans| ==> spans[i].to < spans[j].from
  }

  /** The spans are all lines of the text, one after another, and the texts are what stands there. */
  ghost predicate AreLinesAt(t: Text, spans: seq<Span>, lines: seq<Text>) {
    && |spans| == |lines| && Ascend(spans)
    && (forall i :: 0 <= i < |spans| ==> IsLine(t, spans[i]) && lines[i] == t[spans[i].from..spans[i].to])
    && (forall s :: IsLine(t, s) ==> s in spans)
  }

  function Shifted(spans: seq<Span>, n: nat): (r: seq<Span>)
    ensures |r| == |spans|
    ensures forall i :: 0 <= i < |r| ==> r[i] == Span(spans[i].from + n, spans[i].to + n)
  {
    seq(|spans|, i requires 0 <= i < |spans| => Span(spans[i].from + n, spans[i].to + n))
  }

  lemma LineIsBelow(t: Text, n: nat, s: Span)
    requires n <= |t| && (n > 0 ==> t[n - 1] == NEWLINE)
    ensures IsLine(t, Span(s.from + n, s.to + n)) <==> IsLine(t[n..], s)
  {
    if IsLine(t, Span(s.from + n, s.to + n)) {
      forall k | s.from <= k < s.to ensures t[n..][k] != NEWLINE {
        assert t[k + n] != NEWLINE;
      }
    }
    if IsLine(t[n..], s) {
      forall k | s.from + n <= k < s.to + n ensures t[k] != NEWLINE {
        assert t[n..][k - n] != NEWLINE;
      }
    }
  }

  /** The first line break stands at `n`. */
  predicate BreaksAt(t: Text, n: nat) {
    n < |t| && t[n] == NEWLINE && NEWLINE !in t[..n]
  }

  lemma LineIsFirstOrLater(t: Text, n: nat, s: Span)
    requires BreaksAt(t, n) && IsLine(t, s)
    ensures s == Span(0, n) || s.from > n
  {
    assert forall k :: 0 <= k < n ==> t[k] == t[..n][k];
  }

  lemma FirstIsLine(t: Text, n: nat)
    requires BreaksAt(t, n)
    ensures IsLine(t, Span(0, n)) <==> n > 0
  {
    assert forall k :: 0 <= k < n ==> t[k] == t[..n][k];
  }

  lemma LaterLinesStay(t: Text, n: nat, spans: seq<Span>, lines: seq<Text>, i: nat)
    requires BreaksAt(t, n) && AreLinesAt(t[n + 1..], spans, lines) && i < |spans|
    ensures IsLine(t, Shifted(spans, n + 1)[i])
    ensures lines[i] == t[Shifted(spans, n + 1)[i].from..Shifted(spans, n + 1)[i].to]
  {
    LineIsBelow(t, n + 1, spans[i]);
    assert t[n + 1..][spans[i].from..spans[i].to] == t[spans[i].from + n + 1..spans[i].to + n + 1];
  }

  lemma NoLineIsMissed(t: Text, n: nat, spans: seq<Span>, lines: seq<Text>, s: Span)
    requires BreaksAt(t, n) && AreLinesAt(t[n + 1..], spans, lines) && IsLine(t, s) && s != Span(0, n)
    ensures s in Shifted(spans, n + 1)
  {
    LineIsFirstOrLater(t, n, s);
    var below := Span(s.from - (n + 1), s.to - (n + 1));
    LineIsBelow(t, n + 1, below);
    InShifted(spans, n + 1, below, s);
  }

  lemma InShifted(spans: seq<Span>, n: nat, below: Span, s: Span)
    requires below in spans && s == Span(below.from + n, below.to + n)
    ensures s in Shifted(spans, n)
  {
    var i :| 0 <= i < |spans| && spans[i] == below;
    assert Shifted(spans, n)[i] == s;
  }

  ghost predicate AreLaterLines(t: Text, n: nat, later: seq<Span>, lines: seq<Text>) {
    && |later| == |lines| && Ascend(later) && (forall i :: 0 <= i < |later| ==> later[i].from > n)
    && (forall i :: 0 <= i < |later| ==> IsLine(t, later[i]) && lines[i] == t[later[i].from..later[i].to])
    && (forall s :: IsLine(t, s) && s != Span(0, n) ==> s in later)
  }

  lemma LaterLines(t: Text, n: nat, spans: seq<Span>, lines: seq<Text>) returns (later: seq<Span>)
    requires BreaksAt(t, n) && AreLinesAt(t[n + 1..], spans, lines)
    ensures AreLaterLines(t, n, later, lines)
  {
    later := Shifted(spans, n + 1);
    forall i | 0 <= i < |later| ensures IsLine(t, later[i]) && lines[i] == t[later[i].from..later[i].to] {
      LaterLinesStay(t, n, spans, lines, i);
    }
    forall s | IsLine(t, s) && s != Span(0, n) ensures s in later {
      NoLineIsMissed(t, n, spans, lines, s);
    }
  }

  lemma WithFirst(t: Text, n: nat, later: seq<Span>, lines: seq<Text>)
    requires n < |t| && AreLaterLines(t, n, later, lines) && IsLine(t, Span(0, n))
    ensures AreLinesAt(t, [Span(0, n)] + later, [t[..n]] + lines)
  {
    var spans, texts := [Span(0, n)] + later, [t[..n]] + lines;
    forall i | 0 <= i < |spans| ensures IsLine(t, spans[i]) && texts[i] == t[spans[i].from..spans[i].to] {
      assert i > 0 ==> spans[i] == later[i - 1] && texts[i] == lines[i - 1];
    }
    forall s | IsLine(t, s) ensures s in spans {
      assert s == Span(0, n) || s in later;
    }
  }

  lemma OnlyLine(t: Text) returns (spans: seq<Span>)
    requires NEWLINE !in t
    ensures AreLinesAt(t, spans, if t == [] then [] else [t])
  {
    spans := if t == [] then [] else [Span(0, |t|)];
    forall s | IsLine(t, s) ensures s == Span(0, |t|) {
    }
    assert t[0..|t|] == t;
  }

  /** The lines of a text are exactly the stretches between line breaks that are not empty, in order. */
  lemma {:induction false} LinesAreBetweenBreaks(t: Text) returns (spans: seq<Span>)
    ensures AreLinesAt(t, spans, Lines(t))
    decreases |t|
  {
    var n := LineEnd(t);
    if n == |t| {
      assert t[..n] == t;
      spans := OnlyLine(t);
    } else {
      var later := LinesAreBetweenBreaks(t[n + 1..]);
      later := LaterLines(t, n, later, Lines(t[n + 1..]));
      FirstIsLine(t, n);
      if n == 0 {
        spans := later;
      } else {
        WithFirst(t, n, later, Lines(t[n + 1..]));
        spans := [Span(0, n)] + later;
      }
    }
  }
}
