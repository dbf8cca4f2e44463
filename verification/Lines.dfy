/**
 Splitting a source into lines with their endings, and joining them again.  The
 two are inverse to each other on exactly the well-formed line lists.
 */
module Lines {

  /** How a line ends: at the end of the source, or with LF, CR or CRLF. */
  datatype Ending = NoEnding | Lf | Cr | CrLf

  datatype LineInfo = LineInfo(no: nat, text: string, ending: Ending)

  function EndingText(e: Ending): string
  {
    match e case NoEnding => "" case Lf => "\n" case Cr => "\r" case CrLf => "\r\n"
  }

  function Width(e: Ending): (w: nat)
    ensures w == |EndingText(e)|
  {
    match e case NoEnding => 0 case Lf => 1 case Cr => 1 case CrLf => 2
  }

  /** The text of the lines, endings included. */
  function Join(lines: seq<LineInfo>): string
  {
    if lines == [] then "" else lines[0].text + EndingText(lines[0].ending) + Join(lines[1..])
  }

  predicate IsBreak(c: char) { c == '\r' || c == '\n' }

  /** The offset of the first line break. */
  function FirstBreak(s: string): (i: nat)
    ensures i <= |s| && (i < |s| ==> IsBreak(s[i]))
    ensures forall j :: 0 <= j < i ==> !IsBreak(s[j])
  {
    if s == "" || IsBreak(s[0]) then 0 else 1 + FirstBreak(s[1..])
  }

  /** The ending that starts at a break. */
  function EndingAt(s: string, i: nat): (e: Ending)
    requires i < |s| && IsBreak(s[i])
    ensures e != NoEnding && 0 < Width(e) && i + Width(e) <= |s|
  {
    if s[i] == '\n' then Lf else if i + 1 < |s| && s[i + 1] == '\n' then CrLf else Cr
  }

  /** The lines of what is left of a source; a source that ends in a break leaves an empty last line. */
  function SplitFrom(s: string, no: nat): (lines: seq<LineInfo>)
    ensures |lines| > 0
    decreases |s|
  {
    var i := FirstBreak(s);
    if i == |s| then [LineInfo(no, s, NoEnding)]
    else
      var e := EndingAt(s, i);
      [LineInfo(no, s[..i], e)] + SplitFrom(s[i + Width(e)..], no + 1)
  }

  /** `splitLines`: an empty source has no lines at all. */
  function Split(source: string): seq<LineInfo>
  {
    if source == "" then [] else SplitFrom(source, 1)
  }

  /** The scan of the source, then the line without an ending. */
  method SplitLines(source: string) returns (lines: seq<LineInfo>)
    ensures lines == Split(source)
  {
    if |source| == 0 {
      return [];
    }
    var start, lineNo;
    lines, start, lineNo := ScanBreaks(source);
    NoBreakLeft(source[start..]);
    lines := lines + [LineInfo(lineNo, source[start..], NoEnding)];
  }

  /** The lines found so far, and the lines of the rest, are the lines of the source. */
  ghost predicate Covers(lines: seq<LineInfo>, source: string, start: nat, no: nat)
    requires start <= |source|
  {
    lines + SplitFrom(source[start..], no) == SplitFrom(source, 1)
  }

  /** No line ends between start and i. */
  ghost predicate Clear(source: string, start: nat, i: nat)
    requires i <= |source|
  {
    forall j :: start <= j < i ==> !IsBreak(source[j])
  }

  lemma ClearStep(source: string, start: nat, i: nat)
    requires start <= i <= |source| && Clear(source, start, i)
    ensures Clear(source, i, i)
    ensures i < |source| && !IsBreak(source[i]) ==> Clear(source, start, i + 1)
    ensures i == |source| ==> NoBreaks(source[start..])
  {
  }

  /** One byte a turn, two for CRLF: the ended lines, and where the last line starts. */
  method ScanBreaks(source: string) returns (lines: seq<LineInfo>, start: nat, lineNo: nat)
    ensures start <= |source| && NoBreaks(source[start..])
    ensures Covers(lines, source, start, lineNo)
  {
    hide Covers, EndingAt, EndingText, Width, Clear, NoBreaks, IsBreak;
    lines, start, lineNo := [], 0, 1;
    var i := 0;
    CoversAtFirst(source);
    while i < |source|
      invariant 0 <= start <= i <= |source|
      invariant Clear(source, start, i)
      invariant Covers(lines, source, start, lineNo)
      decreases |source| - i
    {
      if IsBreak(source[i]) {
        var e := EndingAt(source, i);
        LineFound(source, start, i, lineNo, e, lines);
        lines := lines + [LineInfo(lineNo, source[start..i], e)];
        i := i + Width(e);
        start, lineNo := i, lineNo + 1;
      } else {
        ClearStep(source, start, i);
        i := i + 1;
      }
    }
    ClearStep(source, start, i);
  }

  lemma {:induction false} FirstBreakAt(s: string, i: nat)
    requires i < |s| && IsBreak(s[i]) && forall j :: 0 <= j < i ==> !IsBreak(s[j])
    ensures FirstBreak(s) == i
  {
    if i > 0 {
      FirstBreakAt(s[1..], i - 1);
    }
  }

  lemma {:induction false} NoBreakLeft(s: string)
    requires forall j :: 0 <= j < |s| ==> !IsBreak(s[j])
    ensures FirstBreak(s) == |s|
  {
    if s != "" {
      NoBreakLeft(s[1..]);
    }
  }

  lemma CoversAtFirst(source: string)
    ensures Covers([], source, 0, 1) && Clear(source, 0, 0)
  {
    assert source[0..] == source && [] + SplitFrom(source, 1) == SplitFrom(source, 1);
  }

  lemma SplitAt(s: string, n: nat, no: nat)
    requires n < |s| && IsBreak(s[n]) && forall j :: 0 <= j < n ==> !IsBreak(s[j])
    ensures var e := EndingAt(s, n);
      SplitFrom(s, no) == [LineInfo(no, s[..n], e)] + SplitFrom(s[n + Width(e)..], no + 1)
  {
    FirstBreakAt(s, n);
  }

  lemma LineFound(source: string, start: nat, i: nat, no: nat, e: Ending, done: seq<LineInfo>)
    requires start <= i < |source| && IsBreak(source[i]) && e == EndingAt(source, i)
    requires Clear(source, start, i) && Covers(done, source, start, no)
    ensures i < i + Width(e) <= |source| && Clear(source, i + Width(e), i + Width(e))
    ensures Covers(done + [LineInfo(no, source[start..i], e)], source, i + Width(e), no + 1)
  {
    hide SplitFrom;
    var s, n := source[start..], i - start;
    SplitAt(s, n, no);
    assert s[..n] == source[start..i] && s[n + Width(e)..] == source[i + Width(e)..];
    assert EndingAt(s, n) == e;
    var line, rest := [LineInfo(no, source[start..i], e)], SplitFrom(source[i + Width(e)..], no + 1);
    Regroup(done, line, rest);
  }

  lemma Regroup(a: seq<LineInfo>, b: seq<LineInfo>, c: seq<LineInfo>)
    ensures a + (b + c) == (a + b) + c
  {
  }

  // ---------- Split after join, join after split ----------

  /** Splitting loses nothing: joining the lines gives the source back. */
  lemma {:induction false} JoinSplitFrom(s: string, no: nat)
    ensures Join(SplitFrom(s, no)) == s
    decreases |s|
  {
    var i := FirstBreak(s);
    if i == |s| {
      var one := [LineInfo(no, s, NoEnding)];
      assert one[1..] == [];
    } else {
      var e := EndingAt(s, i);
      var rest := s[i + |EndingText(e)|..];
      JoinSplitFrom(rest, no + 1);
      var lines := SplitFrom(s, no);
      assert lines[1..] == SplitFrom(rest, no + 1);
      assert s == s[..i] + EndingText(e) + rest;
    }
  }

  lemma JoinSplit(source: string)
    ensures Join(Split(source)) == source
  {
    JoinSplitFrom(source, 1);
  }

  predicate NoBreaks(text: string) { forall j :: 0 <= j < |text| ==> !IsBreak(text[j]) }

  /** Numbered from `no`, texts without breaks, only the last line unended, and no CR before an empty LF line. */
  ghost predicate WellFormed(lines: seq<LineInfo>, no: nat)
  {
    && lines != []
    && (forall i :: 0 <= i < |lines| ==> lines[i].no == no + i && NoBreaks(lines[i].text))
    && (forall i :: 0 <= i < |lines| ==> (lines[i].ending == NoEnding <==> i == |lines| - 1))
    && (forall i :: 0 <= i < |lines| - 1 && lines[i].ending == Cr ==>
          !(lines[i + 1].text == "" && lines[i + 1].ending == Lf))
  }

  lemma {:induction false} SplitFromWellFormed(s: string, no: nat)
    ensures WellFormed(SplitFrom(s, no), no)
    decreases |s|
  {
    var i := FirstBreak(s);
    if i < |s| {
      var e := EndingAt(s, i);
      var rest := s[i + |EndingText(e)|..];
      SplitFromWellFormed(rest, no + 1);
      SplitFirst(rest, no + 1);
      if e == Cr && rest != "" {
        assert rest[0] == s[i + 1] != '\n';
      }
      Prepend(LineInfo(no, s[..i], e), SplitFrom(rest, no + 1), no);
    }
  }

  lemma SplitFirst(s: string, no: nat)
    ensures var l := SplitFrom(s, no)[0];
      l.text == "" && l.ending == Lf ==> s != "" && s[0] == '\n'
  {
  }

  lemma Prepend(first: LineInfo, tail: seq<LineInfo>, no: nat)
    requires WellFormed(tail, no + 1) && first.no == no && NoBreaks(first.text) && first.ending != NoEnding
    requires first.ending == Cr ==> !(tail[0].text == "" && tail[0].ending == Lf)
    ensures WellFormed([first] + tail, no)
  {
    var all := [first] + tail;
    forall i | 0 <= i < |all| ensures all[i] == if i == 0 then first else tail[i - 1] {
    }
  }

  /** A text without breaks, an ending and a rest split into that line and the lines of the rest. */
  lemma SplitHead(text: string, e: Ending, rest: string, no: nat)
    requires NoBreaks(text) && e != NoEnding && (e == Cr && rest != "" ==> rest[0] != '\n')
    ensures SplitFrom(text + EndingText(e) + rest, no) == [LineInfo(no, text, e)] + SplitFrom(rest, no + 1)
  {
    var s, n := text + EndingText(e) + rest, |text|;
    FirstBreakAt(s, n);
    assert s[..n] == text && s[n + |EndingText(e)|..] == rest;
  }

  lemma {:induction false} SplitFromJoin(lines: seq<LineInfo>, no: nat)
    requires WellFormed(lines, no)
    ensures SplitFrom(Join(lines), no) == lines
    decreases |lines|
  {
    if |lines| == 1 {
      assert lines[1..] == [];
      assert Join(lines) == lines[0].text;
      NoBreakLeft(lines[0].text);
    } else {
      var rest := Join(lines[1..]);
      TailWellFormed(lines, no);
      if rest != "" {
        JoinStart(lines[1..], no + 1);
      }
      SplitHead(lines[0].text, lines[0].ending, rest, no);
      SplitFromJoin(lines[1..], no + 1);
    }
  }

  lemma TailWellFormed(lines: seq<LineInfo>, no: nat)
    requires WellFormed(lines, no) && |lines| > 1
    ensures WellFormed(lines[1..], no + 1)
  {
    var tail := lines[1..];
    forall i | 0 <= i < |tail| ensures tail[i] == lines[i + 1] {
    }
  }

  /** A join starts with LF only when its first line is an empty LF line. */
  lemma JoinStart(lines: seq<LineInfo>, no: nat)
    requires WellFormed(lines, no) && Join(lines) != ""
    ensures Join(lines)[0] == '\n' ==> lines[0].text == "" && lines[0].ending == Lf
  {
    assert |lines| == 1 ==> lines[1..] == [];
    if lines[0].text != "" {
      assert Join(lines)[0] == lines[0].text[0];
    }
  }

  /**
   Which line lists survive a join and a split: none at all, or a well-formed list
   that is not the single empty line (whose join, the empty source, has no lines).
   */
  lemma SplitJoinIff(lines: seq<LineInfo>)
    ensures Split(Join(lines)) == lines <==>
      lines == [] || (WellFormed(lines, 1) && lines != [LineInfo(1, "", NoEnding)])
  {
    if Split(Join(lines)) == lines && lines != [] {
      SplitFromWellFormed(Join(lines), 1);
    }
    if WellFormed(lines, 1) && lines != [LineInfo(1, "", NoEnding)] {
      SplitFromJoin(lines, 1);
      if Join(lines) == "" {
        NoBreakLeft("");
      }
    }
  }
}
