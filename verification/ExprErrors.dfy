/** The errors of texts that are no expressions: which, in which order, and about which place. */
module ExprErrors {
  import opened Wrappers
  import opened Text
  import opened ExprSyntax
  import opened ExprLexer
  import opened StringLiterals
  import opened LetterCase
  import opened ExprParser
  import opened ExprGrammar
  import opened ExprSoundness
  import opened ExprPrinter
  import opened ExprTexts

  // ---------- Failing parses ----------

  /** Where no level above it finds a tree, none does, and the errors are the same. */
  lemma {:induction false} FailsUp(k: nat, ts: seq<Token>)
    requires k <= PRIMARY && ParseLevel(k, ts).node.None? && (k == PRIMARY ==> PrefixOp(Head(ts)).None?)
    ensures ParseLevel(0, ts) == ParseLevel(k, ts)
  {
    hide ParsePrimary, ParseTail;
    if k > 0 {
      FailsUp(k - 1, ts);
    }
  }

  /** At the end of the tokens every level asks for an expression. */
  lemma {:induction false} NothingThere(k: nat)
    requires k <= PRIMARY
    ensures ParseLevel(k, []) == Fail([], ExpectedExpression(Input))
    decreases PRIMARY - k
  {
    if k < UNARY {
      NothingThere(k + 1);
    }
  }

  /** A whole source whose tokens are lexemes, and whose parse finds no tree. */
  lemma FailedSource(ts: seq<Token>, errs: seq<ParseError>)
    requires AllLexemes(ts) && ParseLevel(0, ts).errs == errs && errs != []
    ensures ParseSource(Join(ts)) == Err(errs)
  {
    hide ParseLevel;
    LexJoin(ts);
    assert [] + errs == errs;
  }

  /** A whole expression with nothing, or a closing parenthesis or comma, after it. */
  lemma WholeRead(c: Cst, n: Node, s: string, r: seq<Token>)
    requires Spells(0, c, n, s) && Head(r) in {EOF, RParen, Comma}
    ensures ParseLevel(0, Yield(c) + r) == Found(n, r)
  {
    hide ParseLevel, Layered, Meaning, Yield;
    Complete(0, c, r);
    assert BinaryOp(0, Head(r)).None?;
  }

  // ---------- Missing operands ----------

  /** What is asked for when the right operand of an operator is missing. */
  function RightSite(op: Operator): Site
  {
    match op
    case Or => OrRight
    case And => AndRight
    case _ => OperatorRight
  }

  /** An operator at the end of a text: an expression is missing there, and a right operand of the operator. */
  lemma MissingRightText(op: Operator, l: Node)
    requires op != Not && Built(l) && Named(l)
    ensures ParseSource(InParens(FullText(l)) + " " + OperatorText(op))
         == Err([ExpectedExpression(Input), ExpectedExpression(RightSite(op))])
  {
    hide Spells, OperatorText, FullText, InParens, Built, Named, ParseSource, Strength, ParseLevel, Lex, Spelling, OperatorToken;
    var a := Operand(l);
    var s := InParens(FullText(l));
    var (level, kind) := OperatorToken(op);
    TokenText(op);
    SiteOf(op);
    MissingAfter(level, kind, op, a, l, s);
    var ts := Yield(a) + [Punct(kind)];
    SpelledLexemes(a, l, s);
    OperatorSpelled(level, kind);
    PunctLexeme(kind);
    LexemeConcat(Yield(a), [Punct(kind)]);
    JoinTwo(Yield(a), [Punct(kind)]);
    JoinOne(Punct(kind));
    FailedSource(ts, [ExpectedExpression(Input), ExpectedExpression(RightSite(op))]);
  }

  lemma SpelledLexemes(c: Cst, n: Node, s: string)
    requires Spells(PRIMARY, c, n, s)
    ensures AllLexemes(Yield(c)) && Join(Yield(c)) == s
  {
  }

  lemma SiteOf(op: Operator)
    requires op != Not
    ensures MissingRight(OperatorToken(op).0) == ExpectedExpression(RightSite(op))
  {
  }

  lemma MissingAfter(level: nat, kind: TokenKind, op: Operator, a: Cst, l: Node, s: string)
    requires level < UNARY && BinaryOp(level, kind) == Some(op) && Spells(PRIMARY, a, l, s)
    ensures ParseLevel(0, Yield(a) + [Punct(kind)])
         == Outcome(None, [], [ExpectedExpression(Input), MissingRight(level)])
  {
    hide ParseLevel, Layered, Meaning, Yield, BinaryOp, Spelling, MissingRight;
    var r := [Punct(kind)];
    LowerLevel(level, PRIMARY, a, l, s);
    OperatorFollows(level, kind, []);
    assert [Punct(kind)] + [] == r && r[1..] == [];
    Complete(level, a, r);
    NothingThere(level + 1);
    assert [ExpectedExpression(Input)] + [MissingRight(level)] == [ExpectedExpression(Input), MissingRight(level)];
    FailsUp(level, Yield(a) + r);
  }

  /** A prefix operator at the end of a text. */
  lemma MissingOperandText(op: Operator)
    requires op == Not || op == Sub
    ensures ParseSource(OperatorText(op))
         == Err([ExpectedExpression(Input), ExpectedExpression(if op == Not then NotOperand else MinusOperand)])
  {
    hide Lex;
    var kind := if op == Not then Bang else Minus;
    var ts := [Punct(kind)];
    var errs := [ExpectedExpression(Input), ExpectedExpression(if op == Not then NotOperand else MinusOperand)];
    assert ts[1..] == [];
    NothingThere(UNARY);
    assert ParseUnary([]) == Fail([], ExpectedExpression(Input));
    assert ParseUnary(ts) == Outcome(None, [], errs);
    assert ParseLevel(UNARY, ts) == ParseUnary(ts);
    FailsUp(UNARY, ts);
    PunctLexeme(kind);
    JoinOne(Punct(kind));
    FailedSource(ts, errs);
  }

  /** A text without tokens: the lexer's errors, then that of the missing expression. */
  lemma NoTokens(t: string, errs: seq<ParseError>)
    requires Lex(t) == Lexed([], errs)
    ensures ParseSource(t) == Err(errs + [ExpectedExpression(Input)])
  {
    hide Lex, ParseLevel;
    NothingThere(0);
  }

  /** An empty text. */
  lemma EmptyText()
    ensures ParseSource("") == Err([ExpectedExpression(Input)])
  {
    hide ParseSource;
    var none: seq<ParseError> := [];
    assert none + [ExpectedExpression(Input)] == [ExpectedExpression(Input)];
    NoTokens("", none);
  }

  // ---------- Parentheses ----------

  /** A parenthesis that is not closed. */
  lemma UnclosedText(n: Node)
    requires Built(n) && Named(n)
    ensures ParseSource("(" + " " + FullText(n)) == Err([ExpectedToken(GroupClose)])
  {
    hide Spells, FullText, Built, Named, ParseSource, Lex, ParseTail;
    var c := FullSpells(n);
    var ts := [Punct(LParen)] + Yield(c);
    WholeRead(c, n, FullText(n), []);
    assert Yield(c) + [] == Yield(c) == ts[1..];
    assert ParsePrimary(ts) == Outcome(None, [], [] + [ExpectedToken(GroupClose)]);
    assert ParseLevel(PRIMARY, ts) == ParsePrimary(ts);
    FailsUp(PRIMARY, ts);
    LowestLexemes(c, n, FullText(n));
    PunctLexeme(LParen);
    LexemeConcat([Punct(LParen)], Yield(c));
    JoinTwo([Punct(LParen)], Yield(c));
    JoinOne(Punct(LParen));
    FailedSource(ts, [ExpectedToken(GroupClose)]);
  }

  lemma LowestLexemes(c: Cst, n: Node, s: string)
    requires Spells(0, c, n, s)
    ensures AllLexemes(Yield(c)) && Join(Yield(c)) == s
  {
  }

  /** A whole expression with something that does not continue it. */
  lemma TrailingText(n: Node)
    requires Built(n) && Named(n)
    ensures ParseSource(FullText(n) + " " + ")") == ParseSource(FullText(n) + " " + ",") == Err([ExpectedToken(Trailing)])
  {
    hide FullText, Built, Named, ParseSource;
    assert Spelling(RParen) == ")" && Spelling(Comma) == ",";
    TrailingToken(n, RParen);
    TrailingToken(n, Comma);
  }

  lemma TrailingToken(n: Node, kind: TokenKind)
    requires Built(n) && Named(n) && (kind == RParen || kind == Comma)
    ensures ParseSource(FullText(n) + " " + Spelling(kind)) == Err([ExpectedToken(Trailing)])
  {
    hide Spells, FullText, Built, Named, Lex, ParseLevel;
    var c := FullSpells(n);
    var ts := Yield(c) + [Punct(kind)];
    WholeRead(c, n, FullText(n), [Punct(kind)]);
    LowestLexemes(c, n, FullText(n));
    PunctLexeme(kind);
    LexemeConcat(Yield(c), [Punct(kind)]);
    JoinTwo(Yield(c), [Punct(kind)]);
    JoinOne(Punct(kind));
    LexJoin(ts);
  }

  // ---------- Lexical errors ----------

  /** A literal that is not closed is one error, followed by that of the missing expression. */
  lemma UnterminatedText(s: string)
    requires StringEnd(s) >= |s|
    ensures ParseSource("\"" + s) == Err([UnterminatedString, ExpectedExpression(Input)])
  {
    hide ParseSource, Lex, TurnOf, StringEnd;
    var t := "\"" + s;
    TurnUnterminated(s);
    OneTurnLexed(t, [UnterminatedString]);
    NoTokens(t, [UnterminatedString]);
    assert [UnterminatedString] + [ExpectedExpression(Input)] == [UnterminatedString, ExpectedExpression(Input)];
  }

  lemma TurnUnterminated(s: string)
    requires StringEnd(s) >= |s|
    ensures TurnOf("\"" + s) == Turn([], [UnterminatedString], |s| + 1)
  {
    hide StringEnd, Run, Symbol;
    assert ("\"" + s)[1..] == s;
  }

  lemma OneTurnLexed(t: string, errs: seq<ParseError>)
    requires t != "" && TurnOf(t) == Turn([], errs, |t|)
    ensures Lex(t) == Lexed([], errs)
  {
    hide TurnOf;
    assert t[|t|..] == "";
    assert Lex("") == Lexed([], []);
  }

  /** A byte that begins nothing. */
  lemma UnexpectedByteText(c: char)
    requires !IsSpace(c) && !IsDigit(c) && c != '"' && !IsIdentStart(c) && Symbol([c]) == EOF
    ensures ParseSource([c]) == Err([UnexpectedChar(c), ExpectedExpression(Input)])
  {
    OneTurnLexed([c], [UnexpectedChar(c)]);
    NoTokens([c], [UnexpectedChar(c)]);
    assert [UnexpectedChar(c)] + [ExpectedExpression(Input)] == [UnexpectedChar(c), ExpectedExpression(Input)];
  }

  // ---------- Calls ----------

  /** A name whose rest finds no tree. */
  lemma NamedFails(k: Keyword, rest: seq<Token>, errs: seq<ParseError>)
    requires k != NotKeyword && errs != [] && AllLexemes(rest)
    requires ParseNamed(Name(NameToken(k)), rest).node.None? && ParseNamed(Name(NameToken(k)), rest).errs == errs
    ensures ParseSource(Join([NameToken(k)] + rest)) == Err(errs)
  {
    hide ParseLevel, ParseNamed, ParseSource, Lex, NameToken, IsLexeme, KeywordOf;
    var tok := NameToken(k);
    NameTokenCorrect(k);
    PrimaryNamed(tok, rest);
    AtPrimary([tok] + rest);
    FailsUp(PRIMARY, [tok] + rest);
    assert AllLexemes([tok]);
    LexemeConcat([tok], rest);
    FailedSource([tok] + rest, errs);
  }

  lemma AtPrimary(ts: seq<Token>)
    ensures ParseLevel(PRIMARY, ts) == ParsePrimary(ts)
  {
  }

  /** What a keyword's text leads to. */
  lemma KeywordNamed(k: Keyword, ts: seq<Token>)
    requires k != NotKeyword
    ensures ParseNamed(Name(NameToken(k)), ts)
         == match k
            case KwVar => ParseVar(ts)
            case KwRandom => ParseRandom(ts)
            case KwCommand => Found(CommandExpr, ts)
            case KwPos => (if Head(ts) != Ident then Fail(ts, ExpectedToken(PosAxis)) else Found(PosExpr(ToLower(ts[0].text)), ts[1..]))
            case KwStateType => Found(StateTypeExpr, ts)
            case KwCond => ParseCond(ts)
  {
    hide ParseVar, ParseRandom, ParseCond, NameToken, KeywordOf;
    NameTokenCorrect(k);
  }

  /** A keyword that needs something after it, alone. */
  lemma BareKeywordTexts()
    ensures ParseSource("var") == Err([ExpectedToken(VarOpen)])
    ensures ParseSource("cond") == Err([ExpectedToken(CondOpen)])
    ensures ParseSource("pos") == Err([ExpectedToken(PosAxis)])
  {
    hide ParseSource, ParseNamed, Name;
    KeywordNamed(KwVar, []);
    KeywordNamed(KwCond, []);
    KeywordNamed(KwPos, []);
    NamedFails(KwVar, [], [ExpectedToken(VarOpen)]);
    NamedFails(KwCond, [], [ExpectedToken(CondOpen)]);
    NamedFails(KwPos, [], [ExpectedToken(PosAxis)]);
    assert [NameToken(KwVar)] + [] == [NameToken(KwVar)];
    assert [NameToken(KwCond)] + [] == [NameToken(KwCond)];
    assert [NameToken(KwPos)] + [] == [NameToken(KwPos)];
  }

  /** A keyword, an opening parenthesis, and no more. */
  lemma OpenedTexts()
    ensures ParseSource("var" + " " + "(") == Err([ExpectedExpression(Input), ExpectedExpression(VarIndex)])
    ensures ParseSource("cond" + " " + "(") == Err([ExpectedExpression(Input), ExpectedExpression(CondCondition)])
  {
    hide ParseSource, ParseNamed, Name, Join;
    var open := [Punct(LParen)];
    assert open[1..] == [];
    NothingThere(0);
    hide ParseLevel;
    KeywordNamed(KwVar, open);
    KeywordNamed(KwCond, open);
    assert [ExpectedExpression(Input)] + [ExpectedExpression(VarIndex)] == [ExpectedExpression(Input), ExpectedExpression(VarIndex)];
    assert [ExpectedExpression(Input)] + [ExpectedExpression(CondCondition)] == [ExpectedExpression(Input), ExpectedExpression(CondCondition)];
    PunctLexeme(LParen);
    NamedFails(KwVar, open, [ExpectedExpression(Input), ExpectedExpression(VarIndex)]);
    NamedFails(KwCond, open, [ExpectedExpression(Input), ExpectedExpression(CondCondition)]);
    TwoTexts(NameToken(KwVar), Punct(LParen));
    TwoTexts(NameToken(KwCond), Punct(LParen));
  }

  lemma TwoTexts(a: Token, b: Token)
    ensures Join([a] + [b]) == a.text + " " + b.text
  {
    JoinTwo([a], [b]);
  }

  /** `var` with an index that is not closed. */
  lemma UnclosedVarText(n: Node)
    requires Built(n) && Named(n)
    ensures ParseSource("var" + " " + ("(" + " " + FullText(n))) == Err([ExpectedToken(VarClose)])
  {
    hide Spells, FullText, Built, Named, ParseSource, ParseNamed, Name, ParseLevel, Join;
    var c := FullSpells(n);
    var rest := [Punct(LParen)] + Yield(c);
    WholeRead(c, n, FullText(n), []);
    assert rest[1..] == Yield(c) == Yield(c) + [];
    KeywordNamed(KwVar, rest);
    assert [] + [ExpectedToken(VarClose)] == [ExpectedToken(VarClose)];
    LowestLexemes(c, n, FullText(n));
    PunctLexeme(LParen);
    LexemeConcat([Punct(LParen)], Yield(c));
    NamedFails(KwVar, rest, [ExpectedToken(VarClose)]);
    AfterHead(NameToken(KwVar), Yield(c), FullText(n));
  }

  lemma AfterHead(tok: Token, ts: seq<Token>, s: string)
    requires ts != [] && Join(ts) == s
    ensures Join([tok] + ([Punct(LParen)] + ts)) == tok.text + " " + ("(" + " " + s)
  {
    hide Join;
    JoinTwo([tok], [Punct(LParen)] + ts);
    JoinTwo([Punct(LParen)], ts);
    JoinOne(tok);
    JoinOne(Punct(LParen));
  }

  /** The parts of `cond` that a text breaks off before. */
  lemma BrokenCondTexts(l: Node, m: Node, n: Node)
    requires Built(l) && Named(l) && Built(m) && Named(m) && Built(n) && Named(n)
    ensures ParseSource("cond" + " " + ("(" + " " + FullText(l))) == Err([ExpectedToken(CondFirstComma)])
    ensures ParseSource("cond" + " " + ("(" + " " + (FullText(l) + " " + "," + " " + FullText(m))))
         == Err([ExpectedToken(CondSecondComma)])
    ensures ParseSource("cond" + " " + ("(" + " " + (FullText(l) + " " + "," + " " + (FullText(m) + " " + "," + " " + FullText(n)))))
         == Err([ExpectedToken(CondClose)])
  {
    hide Spells, FullText, Built, Named, ParseSource, ParseCond, ParseBranches, Join;
    var a := FullSpells(l);
    var b := FullSpells(m);
    var c := FullSpells(n);
    LowestLexemes(a, l, FullText(l));
    LowestLexemes(b, m, FullText(m));
    LowestLexemes(c, n, FullText(n));
    AfterComma(Yield(b), Yield(c));
    AfterComma(Yield(a), Yield(b));
    AfterComma(Yield(a), Yield(b) + ([Punct(Comma)] + Yield(c)));
    CommaText(Yield(b), Yield(c), FullText(m), FullText(n));
    CommaText(Yield(a), Yield(b), FullText(l), FullText(m));
    CommaText(Yield(a), Yield(b) + ([Punct(Comma)] + Yield(c)), FullText(l), FullText(m) + " " + "," + " " + FullText(n));
    CondOne(a, l, FullText(l));
    CondFails(Yield(a), FullText(l), ExpectedToken(CondFirstComma));
    CondTwo(a, l, FullText(l), b, m, FullText(m));
    CondFails(Yield(a) + ([Punct(Comma)] + Yield(b)), FullText(l) + " " + "," + " " + FullText(m), ExpectedToken(CondSecondComma));
    CondThree(a, l, FullText(l), b, m, FullText(m), c, n, FullText(n));
    CondFails(Yield(a) + ([Punct(Comma)] + (Yield(b) + ([Punct(Comma)] + Yield(c)))),
              FullText(l) + " " + "," + " " + (FullText(m) + " " + "," + " " + FullText(n)), ExpectedToken(CondClose));
  }

  lemma CondFails(ts: seq<Token>, s: string, e: ParseError)
    requires ts != [] && AllLexemes(ts) && Join(ts) == s
    requires ParseCond([Punct(LParen)] + ts).node.None? && ParseCond([Punct(LParen)] + ts).errs == [e]
    ensures ParseSource("cond" + " " + ("(" + " " + s)) == Err([e])
  {
    hide ParseSource, ParseNamed, Name, ParseCond, Join;
    KeywordNamed(KwCond, [Punct(LParen)] + ts);
    PunctLexeme(LParen);
    LexemeConcat([Punct(LParen)], ts);
    NamedFails(KwCond, [Punct(LParen)] + ts, [e]);
    AfterHead(NameToken(KwCond), ts, s);
  }

  lemma CondOne(a: Cst, l: Node, s: string)
    requires Spells(0, a, l, s)
    ensures ParseCond([Punct(LParen)] + Yield(a)) == Outcome(None, [], [ExpectedToken(CondFirstComma)])
  {
    hide Spells, ParseLevel, ParseBranches;
    WholeRead(a, l, s, []);
    assert ([Punct(LParen)] + Yield(a))[1..] == Yield(a) == Yield(a) + [];
    assert [] + [ExpectedToken(CondFirstComma)] == [ExpectedToken(CondFirstComma)];
  }

  /** After a condition and its comma the branches decide. */
  lemma CondRest(a: Cst, l: Node, s: string, rest: seq<Token>)
    requires Spells(0, a, l, s)
    ensures ParseCond([Punct(LParen)] + (Yield(a) + ([Punct(Comma)] + rest))) == ParseBranches(l, rest)
  {
    hide Spells, ParseLevel, ParseBranches;
    var tail := [Punct(Comma)] + rest;
    WholeRead(a, l, s, tail);
    assert ([Punct(LParen)] + (Yield(a) + tail))[1..] == Yield(a) + tail && tail[1..] == rest;
    assert [] + ParseBranches(l, rest).errs == ParseBranches(l, rest).errs;
  }

  lemma CondTwo(a: Cst, l: Node, s: string, b: Cst, m: Node, t: string)
    requires Spells(0, a, l, s) && Spells(0, b, m, t)
    ensures ParseCond([Punct(LParen)] + (Yield(a) + ([Punct(Comma)] + Yield(b)))) == Outcome(None, [], [ExpectedToken(CondSecondComma)])
  {
    hide Spells, ParseLevel, ParseCond;
    CondRest(a, l, s, Yield(b));
    WholeRead(b, m, t, []);
    assert Yield(b) + [] == Yield(b);
    assert [] + [ExpectedToken(CondSecondComma)] == [ExpectedToken(CondSecondComma)];
  }

  lemma CondThree(a: Cst, l: Node, s: string, b: Cst, m: Node, t: string, c: Cst, n: Node, u: string)
    requires Spells(0, a, l, s) && Spells(0, b, m, t) && Spells(0, c, n, u)
    ensures ParseCond([Punct(LParen)] + (Yield(a) + ([Punct(Comma)] + (Yield(b) + ([Punct(Comma)] + Yield(c))))))
         == Outcome(None, [], [ExpectedToken(CondClose)])
  {
    hide Spells, ParseLevel, ParseCond;
    var tail := [Punct(Comma)] + Yield(c);
    CondRest(a, l, s, Yield(b) + tail);
    WholeRead(b, m, t, tail);
    WholeRead(c, n, u, []);
    assert Yield(c) + [] == Yield(c) == tail[1..];
    var none: seq<ParseError> := [];
    assert none + none == none && none + [ExpectedToken(CondClose)] == [ExpectedToken(CondClose)];
  }

  /** `random` takes no argument; one that is there is skipped, and reported with a missing parenthesis after it. */
  lemma RandomTexts(n: nat)
    ensures ParseSource("random" + " " + InParens(PrintDecimal(n))) == Err([RandomArity])
    ensures ParseSource("random" + " " + ("(" + " " + PrintDecimal(n))) == Err([RandomArity, ExpectedToken(RandomClose)])
  {
    hide ParseSource, PrintDecimal, Join, Name, ParseNamed;
    var tok, open, close := Token(Int, PrintDecimal(n)), Punct(LParen), Punct(RParen);
    var closed, unclosed := [open] + ([tok] + [close]), [open] + [tok];
    RandomSkips(tok);
    KeywordNamed(KwRandom, closed);
    KeywordNamed(KwRandom, unclosed);
    assert AllLexemes([tok]);
    PunctLexeme(LParen);
    PunctLexeme(RParen);
    LexemeConcat([tok], [close]);
    LexemeConcat([open], [tok] + [close]);
    LexemeConcat([open], [tok]);
    RandomFails(closed, [RandomArity]);
    RandomFails(unclosed, [RandomArity, ExpectedToken(RandomClose)]);
    JoinOne(tok);
    HeadText(NameToken(KwRandom), [tok], PrintDecimal(n));
    AfterHead(NameToken(KwRandom), [tok], PrintDecimal(n));
    assert [NameToken(KwRandom), open] + ([tok] + [close]) == [NameToken(KwRandom)] + closed;
  }

  lemma RandomSkips(tok: Token)
    requires tok.kind == Int
    ensures ParseRandom([Punct(LParen)] + ([tok] + [Punct(RParen)])) == Outcome(Some(RandomExpr), [], [RandomArity])
    ensures ParseRandom([Punct(LParen)] + [tok]) == Outcome(Some(RandomExpr), [], [RandomArity, ExpectedToken(RandomClose)])
  {
    var r, s := [tok] + [Punct(RParen)], [tok];
    assert ([Punct(LParen)] + r)[1..] == r && ([Punct(LParen)] + s)[1..] == s;
    assert r[1..] == [Punct(RParen)] && s[1..] == [] && [Punct(RParen)][1..] == [];
    assert SkipToParen([Punct(RParen)]) == [Punct(RParen)] && SkipToParen([]) == [];
    assert SkipToParen(r) == [Punct(RParen)] && SkipToParen(s) == [];
    assert [RandomArity] + [ExpectedToken(RandomClose)] == [RandomArity, ExpectedToken(RandomClose)];
  }

  /** A name whose rest finds a tree with errors. */
  lemma RandomFails(rest: seq<Token>, errs: seq<ParseError>)
    requires AllLexemes(rest) && errs != []
    requires ParseNamed(Name(NameToken(KwRandom)), rest) == Outcome(Some(RandomExpr), [], errs)
    ensures ParseSource(Join([NameToken(KwRandom)] + rest)) == Err(errs)
  {
    hide ParseNamed, NameToken, IsLexeme, KeywordOf, Lex, ParseSource;
    var tok := NameToken(KwRandom);
    NameTokenCorrect(KwRandom);
    PrimaryNamed(tok, rest);
    AtPrimary([tok] + rest);
    ReadAlone(PRIMARY, [tok] + rest, RandomExpr, errs);
    assert AllLexemes([tok]);
    LexemeConcat([tok], rest);
    FailedSource([tok] + rest, errs);
  }

  /** A primary that reads all tokens is what every level reads, errors included. */
  lemma {:induction false} ReadAlone(k: nat, ts: seq<Token>, n: Node, errs: seq<ParseError>)
    requires k <= PRIMARY && ParseLevel(k, ts) == Outcome(Some(n), [], errs) && (k == PRIMARY ==> PrefixOp(Head(ts)).None?)
    ensures ParseLevel(0, ts) == Outcome(Some(n), [], errs)
  {
    hide ParsePrimary;
    if k > 0 {
      assert ParseTail(k - 1, n, []) == Found(n, []);
      assert errs + [] == errs;
      ReadAlone(k - 1, ts, n, errs);
    }
  }

  /** The branches of `cond` that a text breaks off before. */
  lemma MissingBranchTexts(l: Node, m: Node)
    requires Built(l) && Named(l) && Built(m) && Named(m)
    ensures ParseSource("cond" + " " + ("(" + " " + (FullText(l) + " " + ",")))
         == Err([ExpectedExpression(Input), ExpectedExpression(CondThen)])
    ensures ParseSource("cond" + " " + ("(" + " " + (FullText(l) + " " + "," + " " + (FullText(m) + " " + ","))))
         == Err([ExpectedExpression(Input), ExpectedExpression(CondElse)])
  {
    hide Spells, FullText, Built, Named, ParseSource, ParseCond, ParseBranches, Join;
    var a := FullSpells(l);
    var b := FullSpells(m);
    LowestLexemes(a, l, FullText(l));
    LowestLexemes(b, m, FullText(m));
    EndsInComma(Yield(a), FullText(l));
    EndsInComma(Yield(b), FullText(m));
    var first, second := Yield(a) + [Punct(Comma)], Yield(a) + ([Punct(Comma)] + (Yield(b) + [Punct(Comma)]));
    AfterComma(Yield(a), Yield(b) + [Punct(Comma)]);
    CommaText(Yield(a), Yield(b) + [Punct(Comma)], FullText(l), FullText(m) + " " + ",");
    NoThen(l);
    NoElse(l, b, m, FullText(m));
    CondRest(a, l, FullText(l), []);
    CondRest(a, l, FullText(l), Yield(b) + [Punct(Comma)]);
    assert [Punct(Comma)] + [] == [Punct(Comma)];
    CondBreaks(first, FullText(l) + " " + ",", [ExpectedExpression(Input), ExpectedExpression(CondThen)]);
    CondBreaks(second, FullText(l) + " " + "," + " " + (FullText(m) + " " + ","), [ExpectedExpression(Input), ExpectedExpression(CondElse)]);
  }

  lemma EndsInComma(ts: seq<Token>, s: string)
    requires ts != [] && AllLexemes(ts) && Join(ts) == s
    ensures AllLexemes(ts + [Punct(Comma)]) && Join(ts + [Punct(Comma)]) == s + " " + ","
  {
    hide Join, AllLexemes;
    PunctLexeme(Comma);
    LexemeConcat(ts, [Punct(Comma)]);
    JoinTwo(ts, [Punct(Comma)]);
    JoinOne(Punct(Comma));
  }

  lemma NoThen(c: Node)
    ensures ParseBranches(c, []) == Outcome(None, [], [ExpectedExpression(Input), ExpectedExpression(CondThen)])
  {
    NothingThere(0);
    hide ParseLevel;
    assert [ExpectedExpression(Input)] + [ExpectedExpression(CondThen)] == [ExpectedExpression(Input), ExpectedExpression(CondThen)];
  }

  lemma NoElse(c: Node, b: Cst, m: Node, t: string)
    requires Spells(0, b, m, t)
    ensures ParseBranches(c, Yield(b) + [Punct(Comma)])
         == Outcome(None, [], [ExpectedExpression(Input), ExpectedExpression(CondElse)])
  {
    hide Spells, ParseLevel;
    WholeRead(b, m, t, [Punct(Comma)]);
    NothingThere(0);
    assert [Punct(Comma)][1..] == [];
    var none: seq<ParseError> := [];
    assert none + [ExpectedExpression(Input)] == [ExpectedExpression(Input)];
    assert [ExpectedExpression(Input)] + [ExpectedExpression(CondElse)] == [ExpectedExpression(Input), ExpectedExpression(CondElse)];
  }

  lemma CondBreaks(ts: seq<Token>, s: string, errs: seq<ParseError>)
    requires ts != [] && AllLexemes(ts) && Join(ts) == s && errs != []
    requires ParseCond([Punct(LParen)] + ts).node.None? && ParseCond([Punct(LParen)] + ts).errs == errs
    ensures ParseSource("cond" + " " + ("(" + " " + s)) == Err(errs)
  {
    hide ParseSource, ParseNamed, Name, ParseCond, Join;
    KeywordNamed(KwCond, [Punct(LParen)] + ts);
    PunctLexeme(LParen);
    LexemeConcat([Punct(LParen)], ts);
    NamedFails(KwCond, [Punct(LParen)] + ts, errs);
    AfterHead(NameToken(KwCond), ts, s);
  }

  /** A call that is not closed. */
  lemma UnclosedCallText(name: string, n: Node)
    requires IsNameText(name) && KeywordOf(name) == NotKeyword && Built(n) && Named(n)
    ensures ParseSource(name + " " + ("(" + " " + FullText(n))) == Err([ExpectedToken(CallClose)])
  {
    hide Spells, FullText, Built, Named, ParseSource, ParseNamed, ParseLevel, Join, Lex, IsLexeme, KeywordOf, IsNameText;
    var c := FullSpells(n);
    var tok := Token(Ident, name);
    var rest := [Punct(LParen)] + Yield(c);
    NameTextToken(name);
    OneUnclosed(name, c, n, FullText(n));
    NamedCall(name, rest);
    PrimaryNamed(tok, rest);
    AtPrimary([tok] + rest);
    ReadAlone(PRIMARY, [tok] + rest, UnsupportedExpr(name, [n]), [ExpectedToken(CallClose)]);
    LowestLexemes(c, n, FullText(n));
    PunctLexeme(LParen);
    LexemeConcat([Punct(LParen)], Yield(c));
    assert AllLexemes([tok]);
    LexemeConcat([tok], rest);
    FailedSource([tok] + rest, [ExpectedToken(CallClose)]);
    AfterHead(tok, Yield(c), FullText(n));
  }

  lemma NamedCall(name: string, ts: seq<Token>)
    requires KeywordOf(name) == NotKeyword
    ensures ParseNamed(name, ts) == ParseCall(name, ts)
  {
    hide ParseCall, KeywordOf;
  }

  lemma OneUnclosed(name: string, c: Cst, n: Node, s: string)
    requires Spells(0, c, n, s)
    ensures ParseCall(name, [Punct(LParen)] + Yield(c)) == Outcome(Some(UnsupportedExpr(name, [n])), [], [ExpectedToken(CallClose)])
  {
    hide Spells, ParseLevel;
    WholeRead(c, n, s, []);
    NotClosing(c, n, s);
    var rest := [Punct(LParen)] + Yield(c);
    var none: seq<ParseError> := [];
    assert rest[1..] == Yield(c) == Yield(c) + [];
    assert Given(Found(n, [])) + [] == [n] && none + none == none && none + [ExpectedToken(CallClose)] == [ExpectedToken(CallClose)];
    assert ParseMoreArgs([]) == Args([], [], []);
    assert ParseArgs(Yield(c)) == Args([n], [], []);
  }

  /** What begins an expression is no closing parenthesis. */
  lemma NotClosing(c: Cst, n: Node, s: string)
    requires Spells(0, c, n, s)
    ensures Head(Yield(c)) != RParen
  {
    hide Layered, Meaning, Yield, ParseTail;
    WholeRead(c, n, s, []);
    assert Yield(c) + [] == Yield(c);
    if Head(Yield(c)) == RParen {
      ClosingFails(PRIMARY, Yield(c));
      FailsUp(PRIMARY, Yield(c));
    }
  }

  lemma ClosingFails(k: nat, ts: seq<Token>)
    requires k == PRIMARY && Head(ts) in {RParen, Comma}
    ensures ParseLevel(k, ts) == Fail(ts[1..], UnexpectedToken) && PrefixOp(Head(ts)).None?
  {
  }

  /** A text that is a mark no expression begins with. */
  lemma UnexpectedTexts()
    ensures ParseSource(")") == ParseSource(",") == Err([UnexpectedToken])
  {
    hide ParseSource, ParseLevel, Lex;
    OneTokenFails(Punct(RParen), UnexpectedToken);
    OneTokenFails(Punct(Comma), UnexpectedToken);
  }

  /** A literal with an escape there is not. */
  lemma InvalidStringText()
    ensures ParseSource("\"\\q\"") == Err([InvalidString])
  {
    hide ParseSource, ParseLevel, Lex, Unquote, IsLexeme;
    BadEscape();
    OneTokenFails(Token(Str, "\"\\q\""), InvalidString);
  }

  lemma BadEscape()
    ensures Unquote("\"\\q\"") == None && IsLexeme(Token(Str, "\"\\q\""))
  {
    var t := "\"\\q\"";
    assert t[1..3] == "\\q" && t[1..] == "\\q\"";
    assert UnquoteChar("\\q") == None;
    assert t[1..][2..] == "\"" && StringEnd("\"") == 0;
    assert StringEnd(t[1..]) == 2;
  }

  lemma OneTokenFails(t: Token, e: ParseError)
    requires IsLexeme(t)
    requires (t.kind in {RParen, Comma} && e == UnexpectedToken) || (t.kind == Str && Unquote(t.text).None? && e == InvalidString)
    ensures ParseSource(t.text) == Err([e])
  {
    hide Lex, Unquote, ParseSource, IsLexeme;
    assert ParsePrimary([t]) == Fail([t][1..], e);
    AtPrimary([t]);
    FailsUp(PRIMARY, [t]);
    assert AllLexemes([t]);
    JoinOne(t);
    FailedSource([t], [e]);
  }
}
