/**
  Where a decoding error inside a nested JSON token lies in the whole document
  (crates/eldr/src/builtin.rs). Positions are byte positions; the decoder reports a line and a column
  within the token, and the runtime turns them back into bytes before locating them in the source.
 */
module JsonPosition {
  import opened Wrappers
  import opened Bytes
  import opened LineCounting

  const NEWLINE: Byte := 10

  /** `rposition`: the last position of a newline. */
  function LastNewline(s: seq<Byte>): (p: Option<nat>)
    ensures p.Some? ==> p.value < |s|
  {
    if s == [] then None
    else if s[|s| - 1] == NEWLINE then Some(|s| - 1)
    else LastNewline(s[..|s| - 1])
  }

  /** `json_source_position`: lines count from one, columns are bytes since the last newline. */
  function SourcePosition(source: seq<Byte>, offset: nat): (position: (nat, nat))
    requires offset <= |source|
    ensures position.0 > 0
  {
    var prefix := source[..offset];
    var column := match LastNewline(prefix)
      case Some(newline) => |prefix| - newline - 1
      case None => |prefix|;
    (Occurrences(prefix, NEWLINE) + 1, column)
  }

  /** The length of the first line, its newline included. */
  function FirstLine(s: seq<Byte>): (n: nat)
    ensures n <= |s| && (s != [] ==> n > 0)
    ensures n > 0 ==> NEWLINE !in s[..n - 1] && (s[n - 1] == NEWLINE || (n == |s| && NEWLINE !in s))
  {
    if s == [] then 0 else if s[0] == NEWLINE then 1 else 1 + FirstLine(s[1..])
  }

  /** `split_inclusive`: the lines of a text, each with its newline. */
  function SplitInclusive(s: seq<Byte>): seq<seq<Byte>> {
    if s == [] then [] else [s[..FirstLine(s)]] + SplitInclusive(s[FirstLine(s)..])
  }

  /** The bytes in the first `n` lines. */
  function TotalLength(lines: seq<seq<Byte>>, n: nat): nat {
    if n == 0 || lines == [] then 0 else |lines[0]| + TotalLength(lines[1..], n - 1)
  }

  /** The byte of the token that a reported line and column stand for. */
  function TokenOffset(token: seq<Byte>, line: nat, column: nat): nat
    requires line > 0
  {
    TotalLength(SplitInclusive(token), line - 1) + column
  }

  lemma {:induction false} LastNewlineDistance(s: seq<Byte>)
    ensures SinceLast(s, NEWLINE) == match LastNewline(s) { case Some(p) => |s| - p - 1 case None => |s| }
  {
    if s != [] { LastNewlineDistance(s[..|s| - 1]); }
  }

  lemma PositionCounts(s: seq<Byte>, k: nat)
    requires k <= |s|
    ensures SourcePosition(s, k) == (Occurrences(s[..k], NEWLINE) + 1, SinceLast(s[..k], NEWLINE))
  {
    LastNewlineDistance(s[..k]);
  }

  /** Line and column of a byte in a token lead back to that byte. */
  lemma {:induction false} TokenOffsetInverse(token: seq<Byte>, k: nat)
    requires k <= |token|
    ensures var (line, column) := SourcePosition(token, k);
            TokenOffset(token, line, column) == k
    decreases |token|
  {
    hide SourcePosition, FirstLine, SplitInclusive;
    var n := FirstLine(token);
    if k < n || NEWLINE !in token {
      PositionInFirstLine(token, k);
    } else {
      assert token == token[..n - 1] + [NEWLINE] + token[n..];
      PositionAfterLine(token[..n - 1], token[n..], k - n);
      TokenOffsetInverse(token[n..], k - n);
      LengthAfterLine(token, SourcePosition(token[n..], k - n).0 - 1);
    }
  }

  lemma LengthAfterLine(token: seq<Byte>, m: nat)
    requires token != []
    ensures TotalLength(SplitInclusive(token), m + 1)
         == FirstLine(token) + TotalLength(SplitInclusive(token[FirstLine(token)..]), m)
  {
    hide FirstLine;
    var n := FirstLine(token);
    assert SplitInclusive(token)[1..] == SplitInclusive(token[n..]);
  }

  lemma NoNewlineBefore(token: seq<Byte>, k: nat)
    requires k <= |token| && (k < FirstLine(token) || NEWLINE !in token)
    ensures NEWLINE !in token[..k]
  {
    hide FirstLine;
    if k < FirstLine(token) {
      var line := token[..FirstLine(token) - 1];
      assert token[..k] == line[..k];
    }
  }

  lemma PositionInFirstLine(token: seq<Byte>, k: nat)
    requires k <= |token| && (k < FirstLine(token) || NEWLINE !in token)
    ensures SourcePosition(token, k) == (1, k)
  {
    hide FirstLine, SourcePosition, LastNewline, Occurrences, SinceLast;
    PositionCounts(token, k);
    NoNewlineBefore(token, k);
    NoSeparator(token[..k], NEWLINE);
  }

  lemma PositionAfterLine(line: seq<Byte>, rest: seq<Byte>, k: nat)
    requires NEWLINE !in line && k <= |rest|
    ensures var (lines, column) := SourcePosition(rest, k);
            SourcePosition(line + [NEWLINE] + rest, |line| + 1 + k) == (1 + lines, column)
  {
    hide SourcePosition, Occurrences, SinceLast;
    var token := line + [NEWLINE] + rest;
    PositionCounts(token, |line| + 1 + k);
    PositionCounts(rest, k);
    assert token[..|line| + 1 + k] == line + [NEWLINE] + rest[..k];
    SplitAtSeparator(line, NEWLINE, rest[..k]);
  }

  /** A decoding error at byte `k` of a nested token is reported at byte `offset + k` of the document. */
  function DecodeErrorPosition(source: seq<Byte>, offset: nat, token: seq<Byte>, line: nat, column: nat): (nat, nat)
    requires line > 0 && offset + TokenOffset(token, line, column) <= |source|
  {
    SourcePosition(source, offset + TokenOffset(token, line, column))
  }

  lemma DecodeErrorPositionExact(source: seq<Byte>, offset: nat, length: nat, k: nat)
    requires offset + length <= |source| && k <= length
    ensures var token := source[offset..offset + length];
            var (line, column) := SourcePosition(token, k);
            && offset + TokenOffset(token, line, column) <= |source|
            && DecodeErrorPosition(source, offset, token, line, column) == SourcePosition(source, offset + k)
  {
    TokenOffsetInverse(source[offset..offset + length], k);
  }
}
