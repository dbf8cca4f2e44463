/**
 Byte offsets and line/column positions.  `ValidateSpan` accepts a span that
 carries positions exactly when they name its two offsets, and crashes exactly when
 a column is so large that adding it to the start of its line wraps around.
 */
module PatchSpan {
  import opened Int64

  /** One-based line and column; (0, 0) means "not given". */
  datatype Position = Position(line: int, column: int)

  predicate IsInt64(x: int) { MIN <= x <= MAX }

  /** A position as it arrives: a pair of 64-bit integers. */
  type GivenPosition = p: Position | IsInt64(p.line) && IsInt64(p.column) witness Position(0, 0)

  datatype Span = Span(byteStart: int64, byteEnd: int64, start: GivenPosition, end: GivenPosition)

  const NO_POSITION := Position(0, 0)

  /** The position of offset i, counting newlines. */
  function PositionAt(data: string, i: nat): (p: Position)
    requires i <= |data|
    ensures p.line >= 1 && 1 <= p.column <= i + 1
  {
    if i == 0 then Position(1, 1)
    else
      var p := PositionAt(data, i - 1);
      if data[i - 1] == '\n' then Position(p.line + 1, 1) else Position(p.line, p.column + 1)
  }

  /** `positionFor`: any index, clamped to the source. */
  method PositionFor(source: string, index: int) returns (p: Position)
    ensures p == PositionAt(source, if index < 0 then 0 else if index > |source| then |source| else index)
  {
    var stop := if index < 0 then 0 else if index > |source| then |source| else index;
    p := Position(1, 1);
    for i := 0 to stop
      invariant p == PositionAt(source, i)
    {
      if source[i] == '\n' {
        p := Position(p.line + 1, 1);
      } else {
        p := Position(p.line, p.column + 1);
      }
    }
  }

  ghost predicate Precedes(p: Position, q: Position)
  {
    p.line < q.line || (p.line == q.line && p.column < q.column)
  }

  /** Positions grow strictly with the offset, so no two offsets share one. */
  lemma {:induction false} PositionIncreasing(data: string, i: nat, j: nat)
    requires i < j <= |data|
    ensures Precedes(PositionAt(data, i), PositionAt(data, j))
    decreases j
  {
    if i < j - 1 {
      PositionIncreasing(data, i, j - 1);
    }
  }

  /** The offsets at which the lines of data[..n] start. */
  function LineStarts(data: string, n: nat): (starts: seq<nat>)
    requires n <= |data|
    ensures |starts| > 0 && forall k :: 0 <= k < |starts| ==> starts[k] <= n
  {
    if n == 0 then [0]
    else LineStarts(data, n - 1) + (if data[n - 1] == '\n' then [n] else [])
  }

  /** The position of n counts the lines before it and the bytes since its line began. */
  lemma {:induction false} PositionFromStarts(data: string, n: nat)
    requires n <= |data|
    ensures var starts, p := LineStarts(data, n), PositionAt(data, n);
      p.line == |starts| && p.column == n - starts[|starts| - 1] + 1
  {
    if n > 0 {
      PositionFromStarts(data, n - 1);
    }
  }

  lemma {:induction false} LineStartsGrow(data: string, n: nat, m: nat)
    requires n <= m <= |data|
    ensures LineStarts(data, n) <= LineStarts(data, m)
    decreases m
  {
    if n < m {
      LineStartsGrow(data, n, m - 1);
    }
  }

  predicate IsBreak(c: char) { c == '\r' || c == '\n' }

  /** `utf8.RuneStart`: not a continuation byte. */
  predicate RuneStart(c: char) { !('\U{80}' <= c <= '\U{BF}') }

  /** The offset of the first line break at or after `base`. */
  function LineEnd(data: string, base: nat): (e: nat)
    requires base <= |data|
    ensures base <= e <= |data| && (e < |data| ==> IsBreak(data[e]))
    ensures forall i :: base <= i < e ==> !IsBreak(data[i])
    decreases |data| - base
  {
    if base == |data| || IsBreak(data[base]) then base else LineEnd(data, base + 1)
  }

  /** p names offset i: it is its position, no carriage return lies before i on its line, and no rune is cut. */
  ghost predicate Names(data: string, p: Position, i: nat)
    requires i <= |data|
  {
    && PositionAt(data, i) == p
    && (forall j: nat :: i - (p.column - 1) <= j < i ==> data[j] != '\r')
    && (i == |data| || RuneStart(data[i]))
  }

  /** From the start of line L, bytes without a newline keep the line and advance the column. */
  lemma {:induction false} ColumnAdvances(data: string, base: nat, i: nat)
    requires base <= i <= |data|
    requires forall j :: base <= j < i ==> data[j] != '\n'
    ensures PositionAt(data, i).line == PositionAt(data, base).line
    ensures PositionAt(data, i).column == PositionAt(data, base).column + (i - base)
    decreases i
  {
    if i > base {
      ColumnAdvances(data, base, i - 1);
    }
  }

  lemma {:induction false} StartsAt(data: string, n: nat, k: nat)
    requires n <= |data| && k < |LineStarts(data, n)|
    ensures PositionAt(data, LineStarts(data, n)[k]) == Position(k + 1, 1)
    decreases n
  {
    if n > 0 && k < |LineStarts(data, n - 1)| {
      StartsAt(data, n - 1, k);
    } else {
      PositionFromStarts(data, n);
    }
  }

  /** The offset a position leads to, if it is inside its line and does not cut a rune. */
  predicate Reaches(data: string, p: Position, i: nat)
  {
    var starts := LineStarts(data, |data|);
    && 1 <= p.line <= |starts|
    && p.column >= 1
    && starts[p.line - 1] + (p.column - 1) == i
    && i <= LineEnd(data, starts[p.line - 1])
    && (i < LineEnd(data, starts[p.line - 1]) ==> RuneStart(data[i]))
  }

  lemma ReachesIffNames(data: string, p: Position, i: nat)
    requires i <= |data|
    ensures Reaches(data, p, i) <==> Names(data, p, i)
  {
    var starts := LineStarts(data, |data|);
    if Reaches(data, p, i) {
      var base := starts[p.line - 1];
      StartsAt(data, |data|, p.line - 1);
      ColumnAdvances(data, base, i);
    }
    if Names(data, p, i) {
      PositionFromStarts(data, i);
      LineStartsGrow(data, i, |data|);
      var mine := LineStarts(data, i);
      var base := mine[p.line - 1];
      assert starts[p.line - 1] == base;
      NoNewlineSince(data, i);
      PositionFromStarts(data, i);
      forall j: nat | base <= j < i ensures !IsBreak(data[j]) {
      }
      assert i <= LineEnd(data, base);
    }
  }

  lemma {:induction false} NoNewlineSince(data: string, i: nat)
    requires i <= |data|
    ensures forall j: nat :: i - (PositionAt(data, i).column - 1) <= j < i ==> data[j] != '\n'
  {
    if i > 0 {
      NoNewlineSince(data, i - 1);
    }
  }

  // ---------- Overflow ----------

  /** The line exists, and the start of the line and the column add up to more than an `int` holds. */
  predicate Overflows(data: string, p: Position)
  {
    var starts := LineStarts(data, |data|);
    1 <= p.line <= |starts| && p.column >= 1 && starts[p.line - 1] + (p.column - 1) > MAX
  }

  /** Such a sum is negative: it passes for one before the end of the line, and is no index. */
  lemma OverflowIsNegative(base: nat, col: nat)
    requires base <= MAX && col <= MAX
    ensures Wrap(base + col) < 0 <==> base + col > MAX
    ensures base + col <= MAX ==> Wrap(base + col) == base + col
  {
  }

  /** What a position leads to: an offset, none, or the panic of a negative index. */
  datatype Offset = At(i: nat) | Nowhere | Crash

  /** The offset of `pos`, scanning its line for its end. */
  method ToByte(data: string, starts: seq<nat>, pos: Position) returns (r: Offset)
    requires starts == LineStarts(data, |data|) && 1 <= pos.line <= |starts| && pos.column >= 1
    ensures r.Crash? <==> Overflows(data, pos)
    ensures r.At? ==> r.i <= |data| && Reaches(data, pos, r.i)
    ensures r.Nowhere? ==> forall j: nat :: !Reaches(data, pos, j)
  {
    var base := starts[pos.line - 1];
    var lineEnd := base;
    while lineEnd < |data| && !IsBreak(data[lineEnd])
      invariant base <= lineEnd <= |data| && LineEnd(data, base) == LineEnd(data, lineEnd)
    {
      lineEnd := lineEnd + 1;
    }
    var col := pos.column - 1;
    if base + col > MAX {
      return Crash;
    }
    if base + col > lineEnd {
      return Nowhere;
    }
    if base + col < lineEnd && !RuneStart(data[base + col]) {
      return Nowhere;
    }
    return At(base + col);
  }

  datatype Offsets = Both(a: nat, b: nat) | NoOffsets | Crashed

  /** Both lines exist, and the first position overflows, or is reached and the second overflows. */
  ghost predicate PairCrashes(data: string, start: Position, end: Position)
  {
    var count := |LineStarts(data, |data|)|;
    && start.line <= count && end.line <= count
    && (Overflows(data, start) || ((exists i: nat :: Reaches(data, start, i)) && Overflows(data, end)))
  }

  method LineByteOffsets(data: string, start: Position, end: Position) returns (r: Offsets)
    requires start.line >= 1 && end.line >= 1 && start.column >= 1 && end.column >= 1
    ensures r.Crashed? <==> PairCrashes(data, start, end)
    ensures r.Both? ==> r.a <= |data| && r.b <= |data| && Reaches(data, start, r.a) && Reaches(data, end, r.b)
    ensures r.NoOffsets? ==> forall i: nat, j: nat :: !(Reaches(data, start, i) && Reaches(data, end, j))
  {
    var starts: seq<nat> := [0];
    for i := 0 to |data|
      invariant starts == LineStarts(data, i)
    {
      if data[i] == '\n' {
        starts := starts + [i + 1];
      } else {
        assert starts + [] == starts;
      }
    }
    if start.line > |starts| || end.line > |starts| {
      return NoOffsets;
    }
    var first := ToByte(data, starts, start);
    if !first.At? {
      return if first.Crash? then Crashed else NoOffsets;
    }
    var second := ToByte(data, starts, end);
    r := match second case At(b) => Both(first.i, b) case Nowhere => NoOffsets case Crash => Crashed;
  }

  predicate InRange(data: string, s: Span)
  {
    0 <= s.byteStart <= s.byteEnd <= |data|
  }

  /** In range, and either without positions or with positions naming both ends. */
  ghost predicate Accepted(data: string, s: Span)
  {
    && InRange(data, s)
    && ((s.start == NO_POSITION && s.end == NO_POSITION) ||
        (Names(data, s.start, s.byteStart) && Names(data, s.end, s.byteEnd)))
  }

  /** The checks before the positions are resolved. */
  predicate Guarded(s: Span)
  {
    && (s.start != NO_POSITION || s.end != NO_POSITION)
    && s.start.line >= 1 && s.start.column >= 1 && s.end.line >= s.start.line && s.end.column >= 1
  }

  /** Resolving the positions of the span ends in a panic. */
  ghost predicate Crashes(data: string, s: Span)
  {
    InRange(data, s) && Guarded(s) && PairCrashes(data, s.start, s.end)
  }

  datatype Verdict = Accept | Refuse | Panic

  method ValidateSpan(s: Span, data: string) returns (v: Verdict)
    ensures v == Accept <==> Accepted(data, s)
    ensures v == Panic <==> Crashes(data, s)
  {
    hide PairCrashes, Reaches, Names;
    if s.byteStart < 0 || s.byteEnd < s.byteStart || s.byteEnd > |data| {
      return Refuse;
    }
    if s.start != NO_POSITION || s.end != NO_POSITION {
      NamesImplyGuards(data, s);
      if s.start.line < 1 || s.start.column < 1 || s.end.line < s.start.line || s.end.column < 1 {
        return Refuse;
      }
      ReachesIffNames(data, s.start, s.byteStart);
      ReachesIffNames(data, s.end, s.byteEnd);
      ReachedIsFine(data, s);
      var r := LineByteOffsets(data, s.start, s.end);
      if r.Crashed? {
        return Panic;
      }
      if r.NoOffsets? {
        return Refuse;
      }
      SamePlace(data, s, r);
      if r.a != s.byteStart || r.b != s.byteEnd {
        return Refuse;
      }
    }
    return Accept;
  }

  /** A position reaches one offset only. */
  lemma SamePlace(data: string, s: Span, r: Offsets)
    requires InRange(data, s)
    requires r.Both? && Reaches(data, s.start, r.a) && Reaches(data, s.end, r.b)
    ensures Reaches(data, s.start, s.byteStart) && Reaches(data, s.end, s.byteEnd) ==>
      r.a == s.byteStart && r.b == s.byteEnd
  {
  }

  /** Positions that reach the offsets of a span do not overflow, because those are 64-bit integers. */
  lemma ReachedIsFine(data: string, s: Span)
    requires InRange(data, s) && Guarded(s)
    ensures Reaches(data, s.start, s.byteStart) && Reaches(data, s.end, s.byteEnd) ==> !PairCrashes(data, s.start, s.end)
  {
  }

  /** No span crashes whose columns leave room for the size of the data. */
  lemma SmallColumnsAreSafe(data: string, s: Span)
    requires |data| + s.start.column <= MAX && |data| + s.end.column <= MAX
    ensures !Crashes(data, s)
  {
  }

  /** The largest column of the second line of three bytes. */
  lemma OverflowExample()
    ensures Crashes("a\nb", Span(0, 0, Position(1, 1), Position(2, MAX)))
  {
    var data := "a\nb";
    assert LineStarts(data, 0) == [0] && LineStarts(data, 1) == [0] && LineStarts(data, 2) == [0, 2];
    assert LineStarts(data, |data|) == [0, 2];
    assert Reaches(data, Position(1, 1), 0);
  }

  lemma NamesImplyGuards(data: string, s: Span)
    requires InRange(data, s)
    ensures Names(data, s.start, s.byteStart) && Names(data, s.end, s.byteEnd) ==>
      s.start.line >= 1 && s.start.column >= 1 && s.end.line >= s.start.line && s.end.column >= 1
  {
    if s.byteStart < s.byteEnd {
      PositionIncreasing(data, s.byteStart, s.byteEnd);
    }
  }

  /** An accepted span with positions has only one pair of offsets: the positions decide it. */
  lemma PositionsDecideOffsets(data: string, s: Span, t: Span)
    requires Accepted(data, s) && Accepted(data, t)
    requires s.start != NO_POSITION && s.start == t.start && s.end == t.end
    ensures s == t
  {
    var i, j := s.byteStart, t.byteStart;
    if i < j { PositionIncreasing(data, i, j); }
    if j < i { PositionIncreasing(data, j, i); }
    var k, l := s.byteEnd, t.byteEnd;
    if k < l { PositionIncreasing(data, k, l); }
    if l < k { PositionIncreasing(data, l, k); }
  }
}
