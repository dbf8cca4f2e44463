/**
 The frames of the language server's base protocol: a block of header fields, an
 empty line, and a JSON body of the declared length.  Bytes are the characters
 of the same code; whether a body is JSON is a parameter.
 */
module Framing {
  import opened Wrappers
  import opened Text
  import opened LetterCase

  const MAX_FRAME_SIZE: nat := 0x100_0000

  const FIELD: string := "Content-Length"
  const KEY: string := "content-length"

  datatype FrameError = EndOfStream | UnexpectedEnd | MalformedFrame

  /** The first position of c in s, or |s|. */
  function IndexOf(s: string, c: char): (i: nat)
    ensures i <= |s| && forall k :: 0 <= k < i ==> s[k] != c
    ensures i < |s| ==> s[i] == c
    ensures i == |s| <==> c !in s
  {
    if s == "" || s[0] == c then 0
    else
      assert s == [s[0]] + s[1..];
      IndexOf(s[1..], c) + 1
  }

  lemma IndexOfUnique(s: string, c: char, i: nat)
    requires i < |s| && s[i] == c && forall k :: 0 <= k < i ==> s[k] != c
    ensures IndexOf(s, c) == i
  {
    assert s[i] in s;
  }

  /** `strings.TrimSuffix(line, "\r")`. */
  function Chomp(line: string): string
  {
    if line != "" && line[|line| - 1] == '\r' then line[..|line| - 1] else line
  }

  type Fields = map<string, string>

  /** The header field of a line, split at its first colon. */
  function AddField(h: Fields, line: string): Fields
    requires ':' in Chomp(line)
  {
    var text := Chomp(line);
    var colon := IndexOf(text, ':');
    h[ToLower(TrimSpace(text[..colon])) := TrimSpace(text[colon + 1..])]
  }

  datatype Read<T> = Read(result: Result<T, FrameError>, rest: string)

  /** Reads header lines up to an empty one. */
  function ReadHeaders(data: string, h: Fields): Read<Fields>
    decreases |data|
  {
    var i := IndexOf(data, '\n');
    if i == |data| then Read(Err(EndOfStream), "")
    else if Chomp(data[..i]) == "" then Read(Ok(h), data[i + 1..])
    else if ':' !in Chomp(data[..i]) then Read(Err(MalformedFrame), data[i + 1..])
    else ReadHeaders(data[i + 1..], AddField(h, data[..i]))
  }

  /** The declared length, if it is a number the reader accepts. */
  function DeclaredLength(h: Fields): (n: Option<nat>)
    ensures n.Some? ==> n.value <= MAX_FRAME_SIZE
  {
    if KEY !in h then None
    else match Atoi(h[KEY])
         case Some(n) => if 0 <= n <= MAX_FRAME_SIZE then Some(n) else None
         case None => None
  }

  function ReadBody(data: string, n: nat, valid: string -> bool): Read<string>
  {
    if n > |data| then Read(Err(if data == "" then EndOfStream else UnexpectedEnd), "")
    else if valid(data[..n]) then Read(Ok(data[..n]), data[n..])
    else Read(Err(MalformedFrame), data[n..])
  }

  /** What one call takes off the stream. */
  function Frame(data: string, valid: string -> bool): Read<string>
  {
    var head := ReadHeaders(data, map[]);
    match head.result
    case Err(e) => Read(Err(e), head.rest)
    case Ok(h) =>
      match DeclaredLength(h)
      case None => Read(Err(MalformedFrame), head.rest)
      case Some(n) => ReadBody(head.rest, n, valid)
  }

  function EncodeFrame(body: string): string
  {
    FIELD + ": " + PrintDecimal(|body|) + "\r\n\r\n" + body
  }

  /** A buffered reader; `data` is what it has not handed out yet. */
  class Reader {
    var data: string

    constructor (stream: string)
      ensures data == stream
    {
      data := stream;
    }

    /** Up to and including the delimiter; at the end of the stream everything is taken and an error returned. */
    method ReadString(c: char) returns (line: Option<string>)
      modifies this
      ensures var i := IndexOf(old(data), c);
        if i < |old(data)| then line == Some(old(data)[..i + 1]) && data == old(data)[i + 1..]
        else line == None && data == ""
    {
      var i := IndexOf(data, c);
      if i < |data| {
        line := Some(data[..i + 1]);
        data := data[i + 1..];
      } else {
        line := None;
        data := "";
      }
    }

    method ReadFull(n: nat) returns (body: Result<string, FrameError>)
      modifies this
      ensures n <= |old(data)| ==> body == Ok(old(data)[..n]) && data == old(data)[n..]
      ensures n > |old(data)| ==> body == Err(if old(data) == "" then EndOfStream else UnexpectedEnd) && data == ""
    {
      if n <= |data| {
        body := Ok(data[..n]);
        data := data[n..];
      } else {
        body := Err(if data == "" then EndOfStream else UnexpectedEnd);
        data := "";
      }
    }

    method ReadFrame(valid: string -> bool) returns (r: Result<string, FrameError>)
      modifies this
      ensures Read(r, data) == Frame(old(data), valid)
    {
      var headers: Fields := map[];
      while true
        invariant ReadHeaders(data, headers) == ReadHeaders(old(data), map[])
        decreases |data|
      {
        ghost var before := data;
        var line := ReadString('\n');
        if line.None? {
          return Err(EndOfStream);
        }
        var text := line.value[..|line.value| - 1];
        assert text == before[..IndexOf(before, '\n')];
        if Chomp(text) == "" {
          break;
        }
        if IndexOf(Chomp(text), ':') == |Chomp(text)| {
          return Err(MalformedFrame);
        }
        headers := AddField(headers, text);
      }
      var length := DeclaredLength(headers);
      if length.None? {
        return Err(MalformedFrame);
      }
      var body := ReadFull(length.value);
      if body.Ok? && !valid(body.value) {
        return Err(MalformedFrame);
      }
      return body;
    }
  }

  class Writer {
    var written: string

    constructor ()
      ensures written == ""
    {
      written := "";
    }

    method WriteFrame(body: string, valid: string -> bool) returns (ok: bool)
      modifies this
      ensures ok <==> |body| <= 16 * 1024 * 1024 && valid(body)
      ensures written == if ok then old(written) + EncodeFrame(body) else old(written)
      ensures ok ==> written == old(written) + ("Content-Length: " + PrintDecimal(|body|) + "\r\n\r\n" + body)
    {
      if |body| > MAX_FRAME_SIZE || !valid(body) {
        return false;
      }
      written := written + (FIELD + ": " + PrintDecimal(|body|) + "\r\n\r\n");
      written := written + body;
      ok := true;
    }
  }

  // ---------- What a frame is ----------

  /** A line the reader takes for a header field. */
  predicate IsHeaderLine(line: string) { '\n' !in line && Chomp(line) != "" && ':' in Chomp(line) }

  ghost predicate AllHeaderLines(lines: seq<string>) { forall i :: 0 <= i < |lines| ==> IsHeaderLine(lines[i]) }

  function HeaderText(lines: seq<string>): string
  {
    if lines == [] then "" else lines[0] + ("\n" + HeaderText(lines[1..]))
  }

  /** The fields of a block of lines; a later line replaces an earlier one. */
  ghost function FieldsOf(lines: seq<string>, h: Fields): Fields
    requires AllHeaderLines(lines)
  {
    if lines == [] then h else FieldsOf(lines[1..], AddField(h, lines[0]))
  }

  predicate IsBlankLine(line: string) { line == "" || line == "\r" }

  /** The text of a frame with these header lines and this body. */
  function FrameText(lines: seq<string>, blank: string, body: string, rest: string): string
  {
    HeaderText(lines) + (blank + ("\n" + (body + rest)))
  }

  ghost predicate IsFrame(lines: seq<string>, blank: string, body: string, valid: string -> bool)
  {
    && AllHeaderLines(lines)
    && IsBlankLine(blank)
    && DeclaredLength(FieldsOf(lines, map[])) == Some(|body|)
    && valid(body)
  }

  /** Reading one line off the front of a stream. */
  lemma FirstLine(line: string, rest: string)
    requires '\n' !in line
    ensures var data := line + ("\n" + rest);
      IndexOf(data, '\n') == |line| && data[..|line|] == line && data[|line| + 1..] == rest
  {
    var data := line + ("\n" + rest);
    assert data[..|line|] == line;
    IndexOfUnique(data, '\n', |line|);
  }

  lemma {:induction false} HeadersRead(lines: seq<string>, blank: string, rest: string, h: Fields)
    requires AllHeaderLines(lines) && IsBlankLine(blank)
    ensures ReadHeaders(HeaderText(lines) + (blank + ("\n" + rest)), h) == Read(Ok(FieldsOf(lines, h)), rest)
  {
    hide AddField, DeclaredLength, IndexOf, Chomp;
    var tail := blank + ("\n" + rest);
    if lines == [] {
      assert "" + tail == tail;
      ChompBlank(blank);
      FirstLine(blank, rest);
    } else {
      var more := HeaderText(lines[1..]) + tail;
      assert HeaderText(lines) + tail == lines[0] + ("\n" + more);
      FirstLine(lines[0], more);
      HeadersRead(lines[1..], blank, rest, AddField(h, lines[0]));
    }
  }

  lemma ChompBlank(line: string)
    ensures Chomp(line) == "" <==> IsBlankLine(line)
    ensures IsBlankLine(line) ==> '\n' !in line
  {
  }

  /** Whatever the reader takes for a header block is one. */
  lemma {:induction false} HeadersAre(data: string, h: Fields) returns (lines: seq<string>, blank: string)
    requires ReadHeaders(data, h).result.Ok?
    ensures AllHeaderLines(lines) && IsBlankLine(blank)
    ensures data == HeaderText(lines) + (blank + ("\n" + ReadHeaders(data, h).rest))
    ensures ReadHeaders(data, h).result == Ok(FieldsOf(lines, h))
    decreases |data|
  {
    hide AddField, IndexOf, Chomp, IsHeaderLine, IsBlankLine, AllHeaderLines, HeaderText, FieldsOf;
    var i := IndexOf(data, '\n');
    var line, more := data[..i], data[i + 1..];
    assert data == line + ("\n" + more);
    if Chomp(line) == "" {
      ChompBlank(line);
      lines, blank := [], line;
      NoHeaderText(data, h);
    } else {
      var later;
      later, blank := HeadersAre(more, AddField(h, line));
      lines := [line] + later;
      HeaderLineIs(line);
      MoreHeaderText(line, later, blank + ("\n" + ReadHeaders(data, h).rest), h);
    }
  }

  lemma HeaderLineIs(line: string)
    requires '\n' !in line && Chomp(line) != "" && ':' in Chomp(line)
    ensures IsHeaderLine(line)
  {
  }

  lemma NoHeaderText(data: string, h: Fields)
    ensures HeaderText([]) + data == data
    ensures AllHeaderLines([]) && FieldsOf([], h) == h
  {
  }

  lemma MoreHeaderText(line: string, later: seq<string>, tail: string, h: Fields)
    requires IsHeaderLine(line) && AllHeaderLines(later)
    ensures HeaderText([line] + later) + tail == line + ("\n" + (HeaderText(later) + tail))
    ensures AllHeaderLines([line] + later) && FieldsOf([line] + later, h) == FieldsOf(later, AddField(h, line))
  {
    hide AddField;
    assert ([line] + later)[1..] == later;
  }

  /** Every frame is read as its body, and the stream is left just behind it. */
  lemma FrameIsRead(lines: seq<string>, blank: string, body: string, rest: string, valid: string -> bool)
    requires IsFrame(lines, blank, body, valid)
    ensures Frame(FrameText(lines, blank, body, rest), valid) == Read(Ok(body), rest)
  {
    hide DeclaredLength, ReadHeaders, HeaderText, FieldsOf;
    HeadersRead(lines, blank, body + rest, map[]);
    assert (body + rest)[..|body|] == body && (body + rest)[|body|..] == rest;
  }

  /**
   The reader takes a body off the stream exactly when the stream starts with a
   frame of that body: any header lines, in any order and case, whose last
   Content-Length is the size of a valid body.
   */
  lemma ReadExactly(data: string, body: string, rest: string, valid: string -> bool)
    ensures Frame(data, valid) == Read(Ok(body), rest) <==>
            exists lines, blank :: IsFrame(lines, blank, body, valid) && data == FrameText(lines, blank, body, rest)
  {
    hide IsFrame, FrameText, Frame;
    if Frame(data, valid) == Read(Ok(body), rest) {
      var lines, blank := FrameParts(data, body, rest, valid);
    }
    if lines, blank :| IsFrame(lines, blank, body, valid) && data == FrameText(lines, blank, body, rest) {
      FrameIsRead(lines, blank, body, rest, valid);
    }
  }

  lemma FrameParts(data: string, body: string, rest: string, valid: string -> bool) returns (lines: seq<string>, blank: string)
    requires Frame(data, valid) == Read(Ok(body), rest)
    ensures IsFrame(lines, blank, body, valid) && data == FrameText(lines, blank, body, rest)
  {
    hide ReadHeaders, HeaderText, FieldsOf, DeclaredLength;
    lines, blank := HeadersAre(data, map[]);
    assert ReadHeaders(data, map[]).rest == body + rest;
  }

  // ---------- What is no frame ----------

  /** A header field is split at its first colon; its name is taken in lower case, and white space around both parts goes. */
  lemma FieldIsSplit(h: Fields, name: string, value: string)
    requires ':' !in name && (value == "" || value[|value| - 1] != '\r')
    ensures AddField(h, name + ":" + value) == h[ToLower(TrimSpace(name)) := TrimSpace(value)]
    ensures AddField(h, name + ":" + value + "\r") == h[ToLower(TrimSpace(name)) := TrimSpace(value)]
  {
    hide TrimSpace, ToLower;
    var line := name + ":" + value;
    assert line[|name|] == ':' && line[..|name|] == name && line[|name| + 1..] == value;
    IndexOfUnique(line, ':', |name|);
    assert Chomp(line) == line;
    assert (line + "\r")[..|line|] == line;
  }

  /** Header lines only add to the fields, whatever follows them. */
  lemma {:induction false} HeadersPassed(lines: seq<string>, tail: string, h: Fields)
    requires AllHeaderLines(lines)
    ensures ReadHeaders(HeaderText(lines) + tail, h) == ReadHeaders(tail, FieldsOf(lines, h))
  {
    hide AddField, IndexOf, Chomp;
    if lines == [] {
      assert "" + tail == tail;
    } else {
      var more := HeaderText(lines[1..]) + tail;
      assert HeaderText(lines) + tail == lines[0] + ("\n" + more);
      FirstLine(lines[0], more);
      HeadersPassed(lines[1..], tail, AddField(h, lines[0]));
    }
  }

  /** A stream that ends inside its header block is at its end, and nothing is left of it. */
  lemma EndsInHeader(lines: seq<string>, tail: string, valid: string -> bool)
    requires AllHeaderLines(lines) && '\n' !in tail
    ensures Frame(HeaderText(lines) + tail, valid) == Read(Err(EndOfStream), "")
  {
    hide AddField, DeclaredLength;
    HeadersPassed(lines, tail, map[]);
  }

  /** A line without a colon is malformed; the stream is left behind that line. */
  lemma LineWithoutColon(lines: seq<string>, line: string, rest: string, valid: string -> bool)
    requires AllHeaderLines(lines) && '\n' !in line && ':' !in line && !IsBlankLine(line)
    ensures Frame(HeaderText(lines) + (line + ("\n" + rest)), valid) == Read(Err(MalformedFrame), rest)
  {
    hide AddField, DeclaredLength, IndexOf;
    HeadersPassed(lines, line + ("\n" + rest), map[]);
    FirstLine(line, rest);
    ChompBlank(line);
    ChompKeeps(line);
  }

  lemma ChompKeeps(line: string)
    ensures ':' in Chomp(line) <==> ':' in line
  {
    if line != "" {
      assert line == line[..|line| - 1] + [line[|line| - 1]];
    }
  }

  /** The length a header block declares, unless there is none or it is refused. */
  ghost predicate Declares(lines: seq<string>, n: int)
    requires AllHeaderLines(lines)
  {
    var h := FieldsOf(lines, map[]);
    "content-length" in h && Atoi(h["content-length"]) == Some(n)
  }

  /**
   Behind a header block: without a declared length from 0 to 16 MiB the frame is
   malformed and the stream left there; with too little behind it everything is taken;
   an invalid body is malformed and taken.
   */
  lemma BehindHeader(lines: seq<string>, blank: string, rest: string, n: int, valid: string -> bool)
    requires AllHeaderLines(lines) && IsBlankLine(blank)
    ensures var r, h := Frame(HeaderText(lines) + (blank + ("\n" + rest)), valid), FieldsOf(lines, map[]);
      && ("content-length" !in h ==> r == Read(Err(MalformedFrame), rest))
      && ("content-length" in h && Atoi(h["content-length"]) == None ==> r == Read(Err(MalformedFrame), rest))
      && (Declares(lines, n) && !(0 <= n <= 16 * 1024 * 1024) ==> r == Read(Err(MalformedFrame), rest))
      && (Declares(lines, n) && 0 <= n <= 16 * 1024 * 1024 ==>
            r == if n > |rest| then Read(Err(if rest == "" then EndOfStream else UnexpectedEnd), "")
                 else if valid(rest[..n]) then Read(Ok(rest[..n]), rest[n..])
                 else Read(Err(MalformedFrame), rest[n..]))
  {
    hide ReadHeaders, HeaderText, FieldsOf, Atoi, AllHeaderLines;
    HeadersRead(lines, blank, rest, map[]);
  }

  datatype Ending = CutOff | NoColon | Complete

  /** These are all the streams there are. */
  lemma {:induction false} EveryStream(data: string) returns (lines: seq<string>, line: string, rest: string, ending: Ending)
    ensures AllHeaderLines(lines) && '\n' !in line
    ensures data == HeaderText(lines) + if ending == CutOff then line else line + ("\n" + rest)
    ensures match ending
      case CutOff => true
      case NoColon => ':' !in line && !IsBlankLine(line)
      case Complete => IsBlankLine(line)
    decreases |data|
  {
    hide IndexOf, Chomp, IsHeaderLine, IsBlankLine, AllHeaderLines, HeaderText;
    var i := IndexOf(data, '\n');
    NoHeaderText(data, map[]);
    if i == |data| {
      lines, line, rest, ending := [], data, "", CutOff;
    } else {
      line, rest := data[..i], data[i + 1..];
      assert data == line + ("\n" + rest);
      ChompBlank(line);
      ChompKeeps(line);
      if IsBlankLine(line) {
        lines, ending := [], Complete;
      } else if ':' !in line {
        lines, ending := [], NoColon;
      } else {
        var first, later := line, rest;
        HeaderLineIs(first);
        lines, line, rest, ending := EveryStream(later);
        MoreHeaderText(first, lines, if ending == CutOff then line else line + ("\n" + rest), map[]);
        lines := [first] + lines;
      }
    }
  }

  // ---------- The round trip ----------

  lemma TrimDecimal(s: string)
    requires s != "" && AllDigits(s)
    ensures TrimSpace(" " + s) == s
  {
    assert (" " + s)[1..] == s;
    assert IsDigit(s[0]) && IsDigit(s[|s| - 1]);
    assert TrimLeft(s) == s && TrimRight(s) == s;
    assert TrimLeft(" " + s) == TrimLeft(s);
  }

  lemma TrimNothing(s: string)
    requires s != "" && 'A' <= s[0] <= 'z' && 'A' <= s[|s| - 1] <= 'z'
    ensures TrimSpace(s) == s
  {
    assert BlankSize(s) == 0 && BlankTail(s) == 0;
  }

  lemma FieldLower()
    ensures Lower(FIELD) == KEY
  {
    assert forall i :: 0 <= i < |FIELD| ==> LowerChar(FIELD[i]) == KEY[i];
  }

  lemma FieldText()
    ensures FIELD != "" && FIELD[0] == 'C' && FIELD[|FIELD| - 1] == 'h' && ':' !in FIELD && IsAscii(FIELD)
  {
  }

  lemma FieldName()
    ensures ToLower(TrimSpace(FIELD)) == KEY && ':' !in FIELD
  {
    hide Lower, ToLower, TrimSpace;
    FieldText();
    FieldLower();
    TrimNothing(FIELD);
    ToLowerAscii(FIELD);
  }

  lemma PrintedLength(n: nat)
    requires n <= MAX_FRAME_SIZE
    ensures Atoi(PrintDecimal(n)) == Some(n)
  {
    DecimalRoundTrip(n);
    var s := PrintDecimal(n);
    assert IsDigit(s[0]);
  }

  function LengthLine(n: nat): string { FIELD + ": " + PrintDecimal(n) + "\r" }

  lemma LengthLineIs(n: nat)
    requires n <= MAX_FRAME_SIZE
    ensures IsHeaderLine(LengthLine(n))
    ensures DeclaredLength(AddField(map[], LengthLine(n))) == Some(n)
  {
    hide PrintDecimal, ToLower, TrimSpace, Atoi, IndexOf;
    var digits := PrintDecimal(n);
    var text := FIELD + ": " + digits;
    assert Chomp(LengthLine(n)) == text;
    FieldName();
    assert text[..|FIELD|] == FIELD && text[|FIELD|] == ':';
    IndexOfUnique(text, ':', |FIELD|);
    assert text[|FIELD| + 1..] == " " + digits;
    TrimDecimal(digits);
    PrintedLength(n);
    assert forall i :: 0 <= i < |digits| ==> digits[i] != '\n';
  }

  /** A written frame is a frame. */
  lemma WrittenIsFrame(body: string, valid: string -> bool)
    requires |body| <= MAX_FRAME_SIZE && valid(body)
    ensures IsFrame([LengthLine(|body|)], "\r", body, valid)
  {
    hide LengthLine, AddField, DeclaredLength;
    LengthLineIs(|body|);
    var line := LengthLine(|body|);
    assert [line][1..] == [];
    assert FieldsOf([line], map[]) == AddField(map[], line);
  }

  lemma WrittenText(body: string, rest: string)
    ensures EncodeFrame(body) + rest == FrameText([LengthLine(|body|)], "\r", body, rest)
  {
    hide PrintDecimal;
    var line := LengthLine(|body|);
    assert [line][1..] == [];
    assert HeaderText([line]) == line + "\n";
    var start := FIELD + ": " + PrintDecimal(|body|);
    assert "\r\n\r\n" == "\r" + "\n" + "\r" + "\n";
    assert start + "\r\n\r\n" + body + rest == (start + "\r" + "\n") + ("\r" + ("\n" + (body + rest)));
  }

  /** What `WriteFrame` writes, `ReadFrame` reads, leaving what follows. */
  lemma FrameRoundTrip(body: string, rest: string, valid: string -> bool)
    requires |body| <= MAX_FRAME_SIZE && valid(body)
    ensures Frame(EncodeFrame(body) + rest, valid) == Read(Ok(body), rest)
  {
    hide Frame, EncodeFrame, FrameText, IsFrame, LengthLine;
    WrittenIsFrame(body, valid);
    WrittenText(body, rest);
    FrameIsRead([LengthLine(|body|)], "\r", body, rest, valid);
  }

  function EncodeAll(bodies: seq<string>): string
  {
    if bodies == [] then "" else EncodeFrame(bodies[0]) + EncodeAll(bodies[1..])
  }

  /** n calls on one buffered reader. */
  function ReadMany(data: string, n: nat, valid: string -> bool): (seq<Result<string, FrameError>>, string)
    decreases n
  {
    if n == 0 then ([], data)
    else
      var first := Frame(data, valid);
      var more := ReadMany(first.rest, n - 1, valid);
      ([first.result] + more.0, more.1)
  }

  ghost function AllOk(bodies: seq<string>): (rs: seq<Result<string, FrameError>>)
  {
    seq(|bodies|, i requires 0 <= i < |bodies| => Ok(bodies[i]))
  }

  /** Any sequence of valid bodies is read back in order, and the stream is used up exactly. */
  lemma {:induction false} StreamRoundTrip(bodies: seq<string>, rest: string, valid: string -> bool)
    requires forall i :: 0 <= i < |bodies| ==> |bodies[i]| <= MAX_FRAME_SIZE && valid(bodies[i])
    ensures ReadMany(EncodeAll(bodies) + rest, |bodies|, valid) == (AllOk(bodies), rest)
  {
    hide Frame, EncodeFrame;
    if bodies == [] {
      assert "" + rest == rest;
    } else {
      var more := EncodeAll(bodies[1..]) + rest;
      assert EncodeAll(bodies) + rest == EncodeFrame(bodies[0]) + more;
      FrameRoundTrip(bodies[0], more, valid);
      StreamRoundTrip(bodies[1..], rest, valid);
      assert AllOk(bodies) == [Ok(bodies[0])] + AllOk(bodies[1..]);
    }
  }
}
