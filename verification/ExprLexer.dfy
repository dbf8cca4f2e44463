/** The lexer: bytes to tokens, with an error for every byte it cannot place. */
module ExprLexer {
  import opened ExprSyntax
  import opened Text

  datatype Lexed = Lexed(toks: seq<Token>, errs: seq<ParseError>)

  /** `unicode.IsSpace` of one byte. */
  predicate IsSpace(c: char)
  {
    c == ' ' || '\t' <= c <= '\r' || c == '\U{85}' || c == '\U{A0}'
  }

  /** `unicode.IsLetter` of one byte: the letters of ASCII and of Latin-1. */
  predicate IsLetter(c: char)
  {
    || 'a' <= c <= 'z' || 'A' <= c <= 'Z'
    || c == '\U{AA}' || c == '\U{B5}' || c == '\U{BA}'
    || ('\U{C0}' <= c <= '\U{FF}' && c != '\U{D7}' && c != '\U{F7}')
  }

  predicate IsIdentStart(c: char) { c == '_' || IsLetter(c) }

  predicate IsIdentPart(c: char) { c == '_' || IsLetter(c) || IsDigit(c) }

  predicate All(s: string, p: char -> bool) { forall i :: 0 <= i < |s| ==> p(s[i]) }

  /** The length of the longest prefix whose bytes all satisfy p. */
  function Run(s: string, p: char -> bool): (n: nat)
    ensures n <= |s| && All(s[..n], p)
    ensures n < |s| ==> !p(s[n])
  {
    if s != "" && p(s[0]) then 1 + Run(s[1..], p) else 0
  }

  /**
   Given what follows an opening quote, the offset of the closing quote, or |s|
   (or beyond) when there is none.  A backslash protects the byte after it.
   */
  function StringEnd(s: string): (n: nat)
    ensures n < |s| ==> s[n] == '"'
    ensures n <= |s|
  {
    if s == "" || s[0] == '"' then 0
    else if s[0] == '\\' && |s| > 1 then 2 + StringEnd(s[2..])
    else 1 + StringEnd(s[1..])
  }

  /** The token at the head of s by its first two bytes; EOF when no token starts there. */
  function Symbol(s: string): (k: TokenKind)
    requires s != ""
    ensures k != EOF ==> |Spelling(k)| > 0 && HasPrefix(s, Spelling(k))
  {
    var next := if |s| > 1 then s[1] else ' ';
    match s[0]
    case '+' => Plus
    case '-' => Minus
    case '*' => Star
    case '/' => Slash
    case '%' => Percent
    case '!' => if next == '=' then NotEq else Bang
    case '=' => if next == '=' then EqEq else Equal
    case '<' => if next == '=' then LessEq else Less
    case '>' => if next == '=' then GreaterEq else Greater
    case '&' => if next == '&' then AndAnd else EOF
    case '|' => if next == '|' then OrOr else EOF
    case '(' => LParen
    case ')' => RParen
    case ',' => Comma
    case _ => EOF
  }

  /** The scanner takes the longest operator: whatever spelling s starts with, Symbol finds one no shorter. */
  lemma SymbolLongest(s: string)
    requires s != ""
    ensures Symbol(s) == EOF <==> (forall k: TokenKind :: HasPrefix(s, Spelling(k)) ==> Spelling(k) == "")
    ensures forall k: TokenKind :: HasPrefix(s, Spelling(k)) ==> |Spelling(k)| <= |Spelling(Symbol(s))|
    ensures Symbol(s) != EOF ==> HasPrefix(s, Spelling(Symbol(s)))
  {
    forall k: TokenKind | HasPrefix(s, Spelling(k)) && Spelling(k) != ""
      ensures Symbol(s) != EOF && |Spelling(k)| <= |Spelling(Symbol(s))|
    {
      SpelledIsFound(s, k);
    }
    if Symbol(s) != EOF { assert HasPrefix(s, Spelling(Symbol(s))); }
  }

  lemma SpelledIsFound(s: string, k: TokenKind)
    requires HasPrefix(s, Spelling(k)) && Spelling(k) != ""
    ensures Symbol(s) != EOF && |Spelling(k)| <= |Spelling(Symbol(s))|
  {
    assert Spelling(k)[0] == s[0];
    assert |Spelling(k)| > 1 ==> Spelling(k)[1] == s[1];
  }

  /** One turn of the scanning loop on s: what it adds, and how many bytes it takes. */
  datatype Turn = Turn(tok: seq<Token>, err: seq<ParseError>, taken: nat)

  function Take(s: string, kind: TokenKind, n: nat): Turn
    requires n <= |s|
  {
    Turn([Token(kind, s[..n])], [], n)
  }

  /** One space, one token or one error; an unterminated string takes everything. */
  function TurnOf(s: string): (t: Turn)
    requires s != ""
    ensures 0 < t.taken <= |s|
  {
    if IsSpace(s[0]) then Turn([], [], 1)
    else if IsDigit(s[0]) then Take(s, Int, Run(s, IsDigit))
    else if s[0] == '"' then
      var n := StringEnd(s[1..]) + 2;
      if n > |s| then Turn([], [UnterminatedString], |s|) else Take(s, Str, n)
    else if IsIdentStart(s[0]) then Take(s, Ident, Run(s, IsIdentPart))
    else
      var k := Symbol(s);
      if k == EOF then Turn([], [UnexpectedChar(s[0])], 1) else Turn([Punct(k)], [], |Spelling(k)|)
  }

  /** The tokens and errors read before the rest of the source, followed by those of the rest. */
  function Append(toks: seq<Token>, errs: seq<ParseError>, l: Lexed): Lexed
  {
    Lexed(toks + l.toks, errs + l.errs)
  }

  /** What the lexer reads from s: one turn after the other. */
  function Lex(s: string): Lexed
    decreases |s|
  {
    if s == "" then Lexed([], [])
    else var t := TurnOf(s); Append(t.tok, t.err, Lex(s[t.taken..]))
  }

  /** The scanning loop: one space, one token or one error a turn. */
  method LexSource(source: string) returns (toks: seq<Token>, errs: seq<ParseError>)
    ensures Lexed(toks, errs) == Lex(source)
  {
    hide TurnOf, Append;
    var i := 0;
    toks, errs := [], [];
    LexStart(source);
    while i < |source|
      invariant 0 <= i <= |source|
      invariant Append(toks, errs, Lex(source[i..])) == Lex(source)
      decreases |source| - i
    {
      var tok, err, next := ScanOne(source, i);
      Resume(source, i, next);
      AppendStep(toks, errs, tok, err, Lex(source[next..]));
      toks, errs, i := toks + tok, errs + err, next;
    }
    LexEnd(source, toks, errs);
  }

  lemma LexStart(source: string)
    ensures Append([], [], Lex(source[0..])) == Lex(source)
  {
    assert source[0..] == source;
    var l := Lex(source);
    assert [] + l.toks == l.toks && [] + l.errs == l.errs;
  }

  lemma LexEnd(source: string, toks: seq<Token>, errs: seq<ParseError>)
    ensures Append(toks, errs, Lex(source[|source|..])) == Lexed(toks, errs)
  {
    assert toks + [] == toks && errs + [] == errs;
  }

  method ScanOne(source: string, start: nat) returns (tok: seq<Token>, err: seq<ParseError>, i: nat)
    requires start < |source|
    ensures start < i <= |source| && TurnOf(source[start..]) == Turn(tok, err, i - start)
  {
    hide Run, StringEnd, Symbol, Spelling, IsIdentPart, IsSpace, IsDigit, IsIdentStart;
    tok, err, i := [], [], start;
    ghost var turn := TurnOf(source[start..]);
    var ch := source[i];
    if IsSpace(ch) {
      i := i + 1;
    } else if IsDigit(ch) {
      i := ScanRun(source, i, IsDigit);
      Resume(source, start, i);
      tok := [Token(Int, source[start..i])];
    } else if ch == '"' {
      Resume(source, start, start + 1);
      i := ScanString(source, i + 1);
      if i >= |source| {
        err := [UnterminatedString];
        return;
      }
      i := i + 1;
      Resume(source, start, i);
      tok := [Token(Str, source[start..i])];
    } else if IsIdentStart(ch) {
      i := ScanRun(source, i, IsIdentPart);
      Resume(source, start, i);
      tok := [Token(Ident, source[start..i])];
    } else {
      var k := Symbol(source[i..]);
      if k == EOF {
        err := [UnexpectedChar(ch)];
        i := i + 1;
      } else {
        tok := [Punct(k)];
        i := i + |Spelling(k)|;
      }
    }
  }

  lemma Resume(source: string, start: nat, i: nat)
    requires start <= i <= |source|
    ensures source[start..][i - start..] == source[i..]
    ensures source[start..][..i - start] == source[start..i]
  {
  }

  lemma AppendStep(toks: seq<Token>, errs: seq<ParseError>, t: seq<Token>, e: seq<ParseError>, l: Lexed)
    ensures Append(toks + t, errs + e, l) == Append(toks, errs, Append(t, e, l))
  {
  }

  method ScanRun(source: string, start: nat, p: char -> bool) returns (i: nat)
    requires start <= |source|
    ensures i == start + Run(source[start..], p)
  {
    i := start;
    while i < |source| && p(source[i])
      invariant start <= i <= |source|
      invariant start + Run(source[start..], p) == i + Run(source[i..], p)
    {
      assert source[i..][1..] == source[i + 1..];
      i := i + 1;
    }
  }

  method ScanString(source: string, start: nat) returns (i: nat)
    requires start <= |source|
    ensures i == start + StringEnd(source[start..])
  {
    hide StringEnd;
    i := start;
    while i < |source| && source[i] != '"'
      invariant start <= i <= |source|
      invariant start + StringEnd(source[start..]) == i + StringEnd(source[i..])
    {
      StringEndStep(source[i..]);
      if source[i] == '\\' && i + 1 < |source| {
        Resume(source, i, i + 2);
        i := i + 2;
      } else {
        Resume(source, i, i + 1);
        i := i + 1;
      }
    }
    StringEndStep(source[i..]);
  }

  lemma StringEndStep(s: string)
    ensures s == "" || s[0] == '"' ==> StringEnd(s) == 0
    ensures s != "" && s[0] == '\\' && |s| > 1 ==> StringEnd(s) == 2 + StringEnd(s[2..])
    ensures s != "" && s[0] != '"' && (s[0] != '\\' || |s| == 1) ==> StringEnd(s) == 1 + StringEnd(s[1..])
  {
  }

  /** A token as the lexer writes it: its text has the shape of its kind. */
  predicate IsLexeme(t: Token)
  {
    match t.kind
    case EOF => false
    case Int => t.text != "" && AllDigits(t.text)
    case Str => |t.text| >= 2 && t.text[0] == '"' && StringEnd(t.text[1..]) == |t.text| - 2
    case Ident => t.text != "" && IsIdentStart(t.text[0]) && All(t.text, IsIdentPart)
    case _ => t.text == Spelling(t.kind)
  }

  predicate AllLexemes(ts: seq<Token>) { forall t :: t in ts ==> IsLexeme(t) }

  lemma Shifted(s: string, k: nat, m: nat)
    requires k + m <= |s|
    ensures s[k..][..m] == s[..k + m][k..]
  {
  }

  lemma {:induction false} StringEndLocal(s: string, n: nat)
    requires n == StringEnd(s) && n < |s|
    ensures StringEnd(s[..n + 1]) == n
  {
    if s[0] != '"' {
      if s[0] == '\\' && |s| > 1 {
        StringEndLocal(s[2..], n - 2);
        Shifted(s, 2, n - 1);
      } else {
        StringEndLocal(s[1..], n - 1);
        Shifted(s, 1, n);
      }
    }
  }

  lemma TurnLexeme(s: string)
    requires s != ""
    ensures AllLexemes(TurnOf(s).tok)
  {
    hide StringEnd, Symbol, Run;
    if s[0] == '"' && !IsSpace(s[0]) {
      var n := StringEnd(s[1..]) + 2;
      if n <= |s| {
        StringEndLocal(s[1..], n - 2);
        assert s[1..][..n - 2 + 1] == s[..n][1..];
      }
    }
  }

  /** Every token the lexer produces is a lexeme; in particular none is EOF. */
  lemma {:induction false} LexProducesLexemes(s: string)
    ensures AllLexemes(Lex(s).toks)
    decreases |s|
  {
    hide TurnOf, IsLexeme;
    if s != "" {
      TurnLexeme(s);
      LexProducesLexemes(s[TurnOf(s).taken..]);
    }
  }

  /** Token texts joined by one space. */
  function Join(ts: seq<Token>): string
  {
    if ts == [] then "" else if |ts| == 1 then ts[0].text else ts[0].text + " " + Join(ts[1..])
  }

  lemma {:induction false} RunAppend(s: string, r: string, p: char -> bool)
    requires All(s, p) && (r == "" || !p(r[0]))
    ensures Run(s + r, p) == |s|
  {
    if s == "" {
      assert s + r == r;
    } else {
      assert (s + r)[1..] == s[1..] + r;
      RunAppend(s[1..], r, p);
    }
  }

  lemma {:induction false} StringEndAppend(s: string, r: string)
    requires StringEnd(s) < |s|
    ensures StringEnd(s + r) == StringEnd(s)
  {
    if s[0] != '"' {
      if s[0] == '\\' && |s| > 1 {
        assert (s + r)[2..] == s[2..] + r;
        StringEndAppend(s[2..], r);
      } else {
        assert (s + r)[1..] == s[1..] + r;
        StringEndAppend(s[1..], r);
      }
    }
  }

  /** A lexeme followed by a space, or by nothing, is read back as itself. */
  lemma LexOne(t: Token, r: string)
    requires IsLexeme(t) && (r == "" || r[0] == ' ')
    ensures t.text != "" && TurnOf(t.text + r) == Turn([t], [], |t.text|)
  {
    hide Run, StringEnd, Symbol;
    var s := t.text + r;
    if t.kind == Str {
      LexString(t, r);
    } else if t.kind == Int || t.kind == Ident {
      assert s[..|t.text|] == t.text && s[0] == t.text[0];
      RunAppend(t.text, r, if t.kind == Int then IsDigit else IsIdentPart);
    } else {
      SymbolOne(t.kind, r);
    }
  }

  lemma LexString(t: Token, r: string)
    requires IsLexeme(t) && t.kind == Str
    ensures TurnOf(t.text + r) == Turn([t], [], |t.text|)
  {
    hide Run, StringEnd, Symbol, IsIdentStart;
    var s := t.text + r;
    assert s[..|t.text|] == t.text && s[0] == t.text[0];
    assert s[1..] == t.text[1..] + r;
    StringEndAppend(t.text[1..], r);
  }

  lemma SymbolOne(k: TokenKind, r: string)
    requires Spelling(k) != "" && (r == "" || r[0] == ' ')
    ensures var s := Spelling(k) + r;
      && Symbol(s) == k && !IsSpace(s[0]) && !IsDigit(s[0]) && s[0] != '"' && !IsIdentStart(s[0])
  {
    var s := Spelling(k) + r;
    assert s[0] == Spelling(k)[0];
    assert |Spelling(k)| == 1 ==> |s| == 1 || s[1] == ' ';
    assert |Spelling(k)| == 2 ==> s[1] == Spelling(k)[1];
  }

  /** Any list of lexemes joined by spaces lexes to itself, without errors. */
  lemma {:induction false} LexJoin(ts: seq<Token>)
    requires AllLexemes(ts)
    ensures Lex(Join(ts)) == Lexed(ts, [])
    decreases |ts|, 1
  {
    hide TurnOf, IsLexeme;
    if ts != [] {
      var tail := if |ts| == 1 then "" else " " + Join(ts[1..]);
      LexTail(ts);
      assert ts[0] in ts;
      LexOne(ts[0], tail);
      LexAhead(ts[0], tail);
      assert Join(ts) == ts[0].text + tail;
      assert ts == [ts[0]] + ts[1..];
    }
  }

  /** After the turn of a token, the lexer is where the token ends. */
  lemma LexAhead(t: Token, r: string)
    requires t.text != "" && TurnOf(t.text + r) == Turn([t], [], |t.text|)
    ensures Lex(t.text + r) == Append([t], [], Lex(r))
  {
    hide TurnOf;
    assert (t.text + r)[|t.text|..] == r;
  }

  lemma {:induction false} LexTail(ts: seq<Token>)
    requires ts != [] && AllLexemes(ts)
    ensures var tail := if |ts| == 1 then "" else " " + Join(ts[1..]); Lex(tail) == Lexed(ts[1..], [])
    decreases |ts|, 0
  {
    hide IsLexeme;
    if |ts| > 1 {
      var tail := " " + Join(ts[1..]);
      assert tail[1..] == Join(ts[1..]);
      LexJoin(ts[1..]);
      assert TurnOf(tail) == Turn([], [], 1);
    }
  }
}
