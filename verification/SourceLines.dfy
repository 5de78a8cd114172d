/**
  Lines of a source text (crates/diagnostics/src/source.rs), computed in two ways: a split into spans
  and a running line and column. Positions count characters.
 */
module SourceLines {
  import opened Wrappers
  import opened LineCounting

  type Span = (nat, nat)

  // ---------- The split into lines ----------

  /** The span is a newline-free piece of the text. */
  predicate LineOf(source: string, span: Span) {
    span.0 <= span.1 <= |source| && '\n' !in source[span.0..span.1]
  }

  /** The spans cover the text from 0 to `end`, a newline between each two. */
  ghost predicate Covers(source: string, spans: seq<Span>, end: nat) {
    && end <= |source|
    && |spans| > 0 && spans[0].0 == 0 && spans[|spans| - 1].1 == end
    && (forall i | 0 <= i < |spans| :: LineOf(source, spans[i]))
    && (forall i | 0 <= i < |spans| - 1 ::
          spans[i].1 < end && source[spans[i].1] == '\n' && spans[i + 1].0 == spans[i].1 + 1)
  }

  /** A character other than a newline extends the last line. */
  lemma ExtendLine(source: string, spans: seq<Span>, start: nat, idx: nat)
    requires Covers(source, spans + [(start, idx)], idx) && idx < |source| && source[idx] != '\n'
    ensures Covers(source, spans + [(start, idx + 1)], idx + 1)
  {
    var before, after := spans + [(start, idx)], spans + [(start, idx + 1)];
    assert forall i | 0 <= i < |spans| :: after[i] == before[i];
    assert LineOf(source, before[|spans|]);
    assert source[start..idx + 1] == source[start..idx] + [source[idx]];
  }

  /** A newline closes the last line and opens an empty one. */
  lemma BreakLine(source: string, spans: seq<Span>, start: nat, idx: nat)
    requires Covers(source, spans + [(start, idx)], idx) && idx < |source| && source[idx] == '\n'
    ensures Covers(source, spans + [(start, idx)] + [(idx + 1, idx + 1)], idx + 1)
  {
    var before := spans + [(start, idx)];
    var after := before + [(idx + 1, idx + 1)];
    assert forall i | 0 <= i < |before| :: after[i] == before[i];
  }

  method LineSpans(source: string) returns (spans: seq<Span>)
    ensures Covers(source, spans, |source|)
  {
    spans := [];
    var start := 0;
    for idx := 0 to |source|
      invariant Covers(source, spans + [(start, idx)], idx)
    {
      if source[idx] == '\n' {
        BreakLine(source, spans, start, idx);
        spans := spans + [(start, idx)];
        start := idx + 1;
      } else {
        ExtendLine(source, spans, start, idx);
      }
    }
    spans := spans + [(start, |source|)];
  }

  /** `slice_chars`: skip and take, clamped to the text. */
  function SliceChars(source: string, start: nat, end: nat): string {
    var from := if start < |source| then start else |source|;
    var to := if end < |source| then end else |source|;
    if to < from then "" else source[from..to]
  }

  /** A slice holds exactly the characters from `start` up to `end` that the text has. */
  lemma SliceCharsExactly(source: string, start: nat, end: nat, i: nat)
    ensures i < |SliceChars(source, start, end)| <==> start + i < end && start + i < |source|
    ensures start + i < end && start + i < |source| ==> SliceChars(source, start, end)[i] == source[start + i]
  {}

  /** The lines joined by newlines. */
  function Joined(source: string, spans: seq<Span>): string {
    if spans == [] then "" else
    var last := spans[|spans| - 1];
    if |spans| == 1 then SliceChars(source, last.0, last.1)
    else Joined(source, spans[..|spans| - 1]) + "\n" + SliceChars(source, last.0, last.1)
  }

  lemma CoversPrefix(source: string, spans: seq<Span>, end: nat)
    requires Covers(source, spans, end) && |spans| > 1
    ensures Covers(source, spans[..|spans| - 1], spans[|spans| - 2].1)
  {
    var n := |spans| - 1;
    forall i | 0 <= i < n - 1 ensures spans[i].1 < spans[n - 1].1 { SpansOrdered(source, spans, end, i, n - 1); }
  }

  lemma {:induction false} SpansOrdered(source: string, spans: seq<Span>, end: nat, i: nat, j: nat)
    requires Covers(source, spans, end) && i < j < |spans|
    ensures spans[i].1 < spans[j].0 <= spans[j].1
    decreases j
  {
    assert spans[j].0 == spans[j - 1].1 + 1;
    if i < j - 1 { SpansOrdered(source, spans, end, i, j - 1); }
  }

  lemma AppendLine(source: string, newline: nat, end: nat)
    requires newline < end <= |source| && source[newline] == '\n'
    ensures source[..newline] + "\n" + SliceChars(source, newline + 1, end) == source[..end]
  {}

  lemma OnlyLine(source: string, spans: seq<Span>, end: nat)
    requires Covers(source, spans, end) && |spans| == 1
    ensures spans[0] == (0, end) && SliceChars(source, 0, end) == source[..end]
  {}

  lemma LastLine(source: string, spans: seq<Span>, end: nat)
    requires Covers(source, spans, end) && |spans| > 1
    ensures var newline := spans[|spans| - 2].1;
            newline < end <= |source| && source[newline] == '\n' && spans[|spans| - 1] == (newline + 1, end)
  {}

  /** The lines joined by newlines give the text back. */
  lemma {:induction false} LinesJoinToSource(source: string, spans: seq<Span>, end: nat)
    requires Covers(source, spans, end)
    ensures end <= |source| && Joined(source, spans) == source[..end]
    decreases |spans|
  {
    assert end <= |source| && |spans| > 0;
    hide Covers, SliceChars;
    if |spans| == 1 {
      OnlyLine(source, spans, end);
    } else {
      var n := |spans| - 1;
      CoversPrefix(source, spans, end);
      LinesJoinToSource(source, spans[..n], spans[n - 1].1);
      LastLine(source, spans, end);
      AppendLine(source, spans[n - 1].1, end);
    }
  }

  // ---------- Finding the line of a position ----------

  /** `line_index_for_span`: the first span that holds the position. */
  function LineIndex(spans: seq<Span>, pos: nat): (i: Option<nat>)
    ensures i.Some? ==> i.value < |spans| && spans[i.value].0 <= pos <= spans[i.value].1
    ensures i.Some? ==> forall k | 0 <= k < i.value :: !(spans[k].0 <= pos <= spans[k].1)
    ensures i.None? ==> forall k | 0 <= k < |spans| :: !(spans[k].0 <= pos <= spans[k].1)
  {
    if spans == [] then None
    else if spans[0].0 <= pos <= spans[0].1 then Some(0)
    else match LineIndex(spans[1..], pos)
      case Some(i) => Some(i + 1)
      case None => None
  }

  lemma {:induction false} SomeSpanHolds(source: string, spans: seq<Span>, end: nat, pos: nat) returns (i: nat)
    requires Covers(source, spans, end) && pos <= end
    ensures i < |spans| && spans[i].0 <= pos <= spans[i].1
    decreases |spans|
  {
    var n := |spans| - 1;
    if pos >= spans[n].0 {
      i := n;
    } else {
      CoversPrefix(source, spans, end);
      i := SomeSpanHolds(source, spans[..n], spans[n - 1].1, pos);
    }
  }

  /** Every position of the text, its end included, lies in exactly one line; no other position does. */
  lemma PositionInOneLine(source: string, spans: seq<Span>, pos: nat)
    requires Covers(source, spans, |source|)
    ensures LineIndex(spans, pos).Some? <==> pos <= |source|
    ensures forall i, j | 0 <= i < j < |spans| :: !(spans[i].0 <= pos <= spans[i].1 && spans[j].0 <= pos <= spans[j].1)
  {
    if pos <= |source| {
      var i := SomeSpanHolds(source, spans, |source|, pos);
    }
    forall i, j | 0 <= i < j < |spans| ensures !(spans[i].0 <= pos <= spans[i].1 && spans[j].0 <= pos <= spans[j].1) {
      SpansOrdered(source, spans, |source|, i, j);
    }
  }

  // ---------- The running line and column ----------

  method LineColumnForOffset(source: string, offset: nat) returns (line: nat, column: nat)
    ensures var limit := if offset < |source| then offset else |source|;
            line == Occurrences(source[..limit], '\n') + 1 && column == SinceLast(source[..limit], '\n') + 1
  {
    line, column := 1, 1;
    var limit := if offset < |source| then offset else |source|;
    for i := 0 to limit
      invariant line == Occurrences(source[..i], '\n') + 1 && column == SinceLast(source[..i], '\n') + 1
    {
      assert source[..i + 1][..i] == source[..i];
      if source[i] == '\n' {
        line, column := line + 1, 1;
      } else {
        column := column + 1;
      }
    }
  }

  lemma {:induction false} CountWithinLine(source: string, from: nat, pos: nat)
    requires from <= pos <= |source| && '\n' !in source[from..pos]
    ensures Occurrences(source[..pos], '\n') == Occurrences(source[..from], '\n')
    ensures SinceLast(source[..pos], '\n') == SinceLast(source[..from], '\n') + (pos - from)
    decreases pos
  {
    if pos > from {
      assert source[..pos][..pos - 1] == source[..pos - 1];
      assert source[pos - 1] == source[from..pos][pos - 1 - from];
      CountWithinLine(source, from, pos - 1);
    }
  }

  lemma {:induction false} CountBeforeLine(source: string, spans: seq<Span>, end: nat, i: nat)
    requires Covers(source, spans, end) && i < |spans|
    ensures Occurrences(source[..spans[i].0], '\n') == i && SinceLast(source[..spans[i].0], '\n') == 0
    decreases i
  {
    if i > 0 {
      var (start, stop) := spans[i - 1];
      CountBeforeLine(source, spans, end, i - 1);
      CountWithinLine(source, start, stop);
      assert source[..stop + 1][..stop] == source[..stop];
    }
  }

  /** The running line and column are the number of the line and the position within it. */
  lemma LineColumnMatchesSpans(source: string, spans: seq<Span>, offset: nat)
    requires Covers(source, spans, |source|)
    ensures var pos := if offset < |source| then offset else |source|;
            var i := LineIndex(spans, pos);
            && i.Some?
            && Occurrences(source[..pos], '\n') + 1 == i.value + 1
            && SinceLast(source[..pos], '\n') + 1 == pos - spans[i.value].0 + 1
  {
    var pos := if offset < |source| then offset else |source|;
    PositionInOneLine(source, spans, pos);
    var i := LineIndex(spans, pos).value;
    CountBeforeLine(source, spans, |source|, i);
    assert LineOf(source, spans[i]);
    NoNewlineBefore(source, spans[i], pos);
    hide Occurrences, SinceLast, Covers;
    CountWithinLine(source, spans[i].0, pos);
  }

  lemma NoNewlineBefore(source: string, span: Span, pos: nat)
    requires LineOf(source, span) && span.0 <= pos <= span.1
    ensures '\n' !in source[span.0..pos]
  {
    assert source[span.0..pos] == source[span.0..span.1][..pos - span.0];
  }

  // ---------- Trimming a line ----------

  predicate Whitespace(c: char) {
    c == ' ' || c == '\t' || c == '\n' || c == '\r' || c == 12 as char
  }

  /** The ASCII whitespace: tab, line feed, form feed, carriage return and space. */
  lemma WhitespaceExactly(c: char)
    ensures Whitespace(c) <==> c as int in {0x09, 0x0a, 0x0c, 0x0d, 0x20}
  {}

  /** The trimmed span starts and ends on text and drops only whitespace; a blank line has none. */
  method TrimmedLineSpan(source: string, line: Span) returns (r: Option<Span>)
    ensures var text := SliceChars(source, line.0, line.1);
            match r
            case None => forall i | 0 <= i < |text| :: Whitespace(text[i])
            case Some(span) =>
              var (start, end) := (span.0 - line.0, span.1 - line.0);
              && 0 <= start < end <= |text|
              && !Whitespace(text[start]) && !Whitespace(text[end - 1])
              && (forall i | 0 <= i < start || end <= i < |text| :: Whitespace(text[i]))
  {
    var chars := SliceChars(source, line.0, line.1);
    var start, end := 0, |chars|;
    while start < end && Whitespace(chars[start])
      invariant start <= end && forall i | 0 <= i < start :: Whitespace(chars[i])
    {
      start := start + 1;
    }
    while end > start && Whitespace(chars[end - 1])
      invariant start <= end <= |chars| && forall i | end <= i < |chars| :: Whitespace(chars[i])
    {
      end := end - 1;
    }
    r := if start < end then Some((line.0 + start, line.0 + end)) else None;
  }
}
