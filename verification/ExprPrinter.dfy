/**
 A printer with minimal parentheses, and the round trip: printing any tree the
 parser can build and parsing the text gives that tree back.
 */
module ExprPrinter {
  import opened Wrappers
  import opened Text
  import opened ExprSyntax
  import opened ExprLexer
  import opened LetterCase
  import opened StringLiterals
  import opened ExprParser
  import opened ExprGrammar
  import opened ExprSoundness

  // ---------- Strings ----------

  lemma {:induction false} StringEndEscape(s: string)
    ensures StringEnd(Escape(s) + "\"") == |Escape(s)|
  {
    if s != "" {
      StringEndEscape(s[1..]);
      var r := Escape(s[1..]) + "\"";
      assert Escape(s) + "\"" == EscapeChar(s[0]) + r;
      StringEndChar(s[0], r);
    }
  }

  lemma StringEndChar(c: char, r: string)
    ensures StringEnd(EscapeChar(c) + r) == |EscapeChar(c)| + StringEnd(r)
  {
    hide StringEnd;
    var e := EscapeChar(c);
    StringEndStep(e + r);
    if 0x80 <= c as int <= 0xFF {
      var two, one := (e + r)[2..], (e + r)[3..];
      assert two[0] == e[2] && one[0] == e[3] && two[1..] == one && one[1..] == r;
      StringEndStep(two);
      StringEndStep(one);
    } else if |e| == 2 {
      assert (e + r)[2..] == r;
    } else {
      assert (e + r)[1..] == r;
    }
  }

  /** Every byte string has a literal, and reading the literal gives the string back. */
  lemma QuoteRoundTrip(s: string)
    ensures Unquote(Quote(s)) == Some(s) && IsLexeme(Token(Str, Quote(s)))
  {
    var q := Quote(s);
    UnquoteEscape(s);
    StringEndEscape(s);
    assert q[1..|q| - 1] == Escape(s);
    assert q[1..] == Escape(s) + "\"";
  }

  // ---------- Trees the parser can build ----------

  /** A name as the parser stores it: in lower case. */
  predicate IsStoredName(s: string) { IsLowered(s) && ToLower(s) == s }

  /** A stored name that can be written as an identifier. */
  predicate IsNameText(s: string) { IsIdentText(s) && ToLower(s) == s }

  predicate IsBinary(op: Operator) { op != Not }

  /** Trees the parser can build. */
  ghost predicate Built(n: Node)
  {
    match n
    case IntLiteral(v) => v >= 0
    case StringLiteral(_) => true
    case UnaryExpr(op, operand) => (op == Not || op == Sub) && Built(operand)
    case BinaryExpr(op, l, r) => IsBinary(op) && Built(l) && Built(r)
    case VarExpr(i) => Built(i)
    case RandomExpr => true
    case CommandExpr => true
    case PosExpr(axis) => IsStoredName(axis)
    case StateTypeExpr => true
    case CondExpr(c, a, b) => Built(c) && Built(a) && Built(b)
    case UnsupportedExpr(name, args) =>
      IsStoredName(name) && KeywordOf(name) == NotKeyword && forall i :: 0 <= i < |args| ==> Built(args[i])
  }

  /** Trees all of whose names can be written as identifiers. */
  ghost predicate Named(n: Node)
  {
    match n
    case UnaryExpr(_, operand) => Named(operand)
    case BinaryExpr(_, l, r) => Named(l) && Named(r)
    case VarExpr(i) => Named(i)
    case PosExpr(axis) => IsIdentText(axis)
    case CondExpr(c, a, b) => Named(c) && Named(a) && Named(b)
    case UnsupportedExpr(name, args) => IsIdentText(name) && forall i :: 0 <= i < |args| ==> Named(args[i])
    case _ => true
  }

  /** The lower-cased text of every identifier is identifier text again. */
  ghost predicate Spelled(ts: seq<Token>) { forall t :: t in ts && t.kind == Ident ==> IsIdentText(ToLower(t.text)) }

  lemma LoweredIsName(t: Token)
    requires IsLexeme(t) && t.kind == Ident
    ensures IsStoredName(ToLower(t.text))
  {
    ToLowerIdent(t.text);
  }

  lemma KeywordIsIdent(name: string)
    requires KeywordOf(name) != NotKeyword
    ensures IsIdentText(name)
  {
    assert forall i :: 0 <= i < |name| ==> 'a' <= name[i] <= 'z';
  }

  /** Lists of tokens put together. */
  lemma Joined(a: seq<Token>, b: seq<Token>)
    ensures AllLexemes(a + b) <==> AllLexemes(a) && AllLexemes(b)
    ensures Spelled(a + b) <==> Spelled(a) && Spelled(b)
  {
    hide IsLexeme, IsIdentText;
    assert forall t :: t in a || t in b ==> t in a + b;
  }

  lemma PunctSpelled(k: TokenKind)
    requires Spelling(k) != ""
    ensures Spelled([Punct(k)])
  {
  }

  /** A name and an opening parenthesis. */
  lemma HeadSpelled(tok: Token)
    requires tok.kind == Ident
    ensures AllLexemes([tok, Punct(LParen)]) ==> IsLexeme(tok)
    ensures Spelled([tok, Punct(LParen)]) <==> IsIdentText(ToLower(tok.text))
  {
    hide IsLexeme, IsIdentText;
    assert tok in [tok, Punct(LParen)];
  }

  lemma Enclosed(left: seq<Token>, ts: seq<Token>)
    ensures AllLexemes(left + (ts + [Punct(RParen)])) ==> AllLexemes(left) && AllLexemes(ts)
    ensures Spelled(left + (ts + [Punct(RParen)])) <==> Spelled(left) && Spelled(ts)
  {
    hide AllLexemes, Spelled;
    PunctSpelled(RParen);
    Joined(ts, [Punct(RParen)]);
    Joined(left, ts + [Punct(RParen)]);
  }

  lemma Separated(a: seq<Token>, b: seq<Token>, k: TokenKind)
    requires Spelling(k) != ""
    ensures AllLexemes(a + ([Punct(k)] + b)) ==> AllLexemes(a) && AllLexemes(b)
    ensures Spelled(a + ([Punct(k)] + b)) <==> Spelled(a) && Spelled(b)
  {
    hide AllLexemes, Spelled;
    PunctSpelled(k);
    Joined([Punct(k)], b);
    Joined(a, [Punct(k)] + b);
  }

  /** What a derivation stands for is a tree the parser can build, and its names can be written when those of its tokens can. */
  lemma {:induction false} MeaningBuilt(k: nat, c: Cst)
    requires Layered(k, c) && AllLexemes(Yield(c))
    ensures Built(Meaning(c)) && (Named(Meaning(c)) <==> Spelled(Yield(c)))
    decreases c, 1
  {
    hide Layered, AllLexemes, Yield, Meaning, Spelled, Built, Named;
    match c
    case Atom(_) => AtomBuilt(k, c);
    case RandomCall(_) => RandomBuilt(k, c);
    case Axis(_, _) => AxisBuilt(k, c);
    case Group(_) => GroupBuilt(k, c);
    case Prefix(_, _) => PrefixBuilt(k, c);
    case Infix(_, _, _, _) => InfixBuilt(k, c);
    case VarCall(_, _) => VarBuilt(k, c);
    case CondCall(_, _, _, _) => CondBuilt(k, c);
    case Call(_, _) => CallBuilt(k, c);
  }

  lemma InfixIsBinary(level: nat, kind: TokenKind)
    requires BinaryOp(level, kind).Some?
    ensures IsBinary(BinaryOp(level, kind).value)
  {
  }

  lemma AxisBuilt(k: nat, c: Cst)
    requires c.Axis? && Layered(k, c) && AllLexemes(Yield(c))
    ensures Built(Meaning(c)) && (Named(Meaning(c)) <==> Spelled(Yield(c)))
  {
    hide KeywordOf, IsIdentText, IsStoredName;
    assert c.axis in Yield(c) && c.tok in Yield(c);
    LoweredIsName(c.axis);
    KeywordIsIdent(Name(c.tok));
    assert forall t :: t in Yield(c) <==> t == c.tok || t == c.axis;
  }

  lemma AtomBuilt(k: nat, c: Cst)
    requires c.Atom? && Layered(k, c) && AllLexemes(Yield(c))
    ensures Built(Meaning(c)) && (Named(Meaning(c)) <==> Spelled(Yield(c)))
  {
    hide KeywordOf, IsIdentText, IsStoredName, Unquote;
    assert c.tok in Yield(c);
    assert forall t :: t in Yield(c) <==> t == c.tok;
    if c.tok.kind == Ident {
      LoweredIsName(c.tok);
      if KeywordOf(Name(c.tok)) != NotKeyword {
        KeywordIsIdent(Name(c.tok));
      }
    }
  }

  lemma RandomBuilt(k: nat, c: Cst)
    requires c.RandomCall? && Layered(k, c) && AllLexemes(Yield(c))
    ensures Built(Meaning(c)) && (Named(Meaning(c)) <==> Spelled(Yield(c)))
  {
    hide KeywordOf, IsIdentText, AllLexemes, Spelled;
    KeywordIsIdent(Name(c.tok));
    HeadSpelled(c.tok);
    PunctSpelled(RParen);
    Joined([c.tok, Punct(LParen)], [Punct(RParen)]);
    assert Yield(c) == [c.tok, Punct(LParen)] + [Punct(RParen)];
  }

  lemma {:induction false} GroupBuilt(k: nat, c: Cst)
    requires c.Group? && Layered(k, c) && AllLexemes(Yield(c))
    ensures Built(Meaning(c)) && (Named(Meaning(c)) <==> Spelled(Yield(c)))
    decreases c, 0
  {
    hide AllLexemes, Spelled, Built, Named;
    PunctSpelled(LParen);
    Enclosed([Punct(LParen)], Yield(c.inner));
    MeaningBuilt(0, c.inner);
  }

  lemma {:induction false} PrefixBuilt(k: nat, c: Cst)
    requires c.Prefix? && Layered(k, c) && AllLexemes(Yield(c))
    ensures Built(Meaning(c)) && (Named(Meaning(c)) <==> Spelled(Yield(c)))
    decreases c, 0
  {
    hide AllLexemes, Spelled;
    PunctSpelled(c.kind);
    Joined([Punct(c.kind)], Yield(c.operand));
    MeaningBuilt(UNARY, c.operand);
  }

  lemma {:induction false} InfixBuilt(k: nat, c: Cst)
    requires c.Infix? && Layered(k, c) && AllLexemes(Yield(c))
    ensures Built(Meaning(c)) && (Named(Meaning(c)) <==> Spelled(Yield(c)))
    decreases c, 0
  {
    hide AllLexemes, Spelled, BinaryOp;
    OperatorSpelled(c.level, c.kind);
    Separated(Yield(c.left), Yield(c.right), c.kind);
    MeaningBuilt(c.level, c.left);
    MeaningBuilt(c.level + 1, c.right);
    InfixIsBinary(c.level, c.kind);
  }

  lemma {:induction false} VarBuilt(k: nat, c: Cst)
    requires c.VarCall? && Layered(k, c) && AllLexemes(Yield(c))
    ensures Built(Meaning(c)) && (Named(Meaning(c)) <==> Spelled(Yield(c)))
    decreases c, 0
  {
    hide AllLexemes, Spelled, KeywordOf, IsIdentText;
    KeywordIsIdent(Name(c.tok));
    HeadSpelled(c.tok);
    Enclosed([c.tok, Punct(LParen)], Yield(c.arg));
    MeaningBuilt(0, c.arg);
  }

  lemma {:induction false} CondBuilt(k: nat, c: Cst)
    requires c.CondCall? && Layered(k, c) && AllLexemes(Yield(c))
    ensures Built(Meaning(c)) && (Named(Meaning(c)) <==> Spelled(Yield(c)))
    decreases c, 0
  {
    hide AllLexemes, Spelled, KeywordOf, IsIdentText, IsLexeme;
    CondParts(k, c);
    MeaningBuilt(0, c.c);
    MeaningBuilt(0, c.a);
    MeaningBuilt(0, c.b);
  }

  lemma CondParts(k: nat, c: Cst)
    requires c.CondCall? && Layered(k, c) && AllLexemes(Yield(c))
    ensures AllLexemes(Yield(c.c)) && AllLexemes(Yield(c.a)) && AllLexemes(Yield(c.b))
    ensures Spelled(Yield(c)) <==> Spelled(Yield(c.c)) && Spelled(Yield(c.a)) && Spelled(Yield(c.b))
  {
    hide AllLexemes, Spelled, KeywordOf, IsIdentText, IsLexeme, Yield;
    KeywordIsIdent(Name(c.tok));
    HeadSpelled(c.tok);
    CondYieldIs(c.tok, c.c, c.a, c.b);
    ThreeEnclosed([c.tok, Punct(LParen)], Yield(c.c), Yield(c.a), Yield(c.b));
  }

  /** Three lists with commas between them and a closing parenthesis. */
  lemma ThreeEnclosed(head: seq<Token>, x: seq<Token>, y: seq<Token>, z: seq<Token>)
    ensures var all := head + (x + ([Punct(Comma)] + (y + ([Punct(Comma)] + (z + [Punct(RParen)])))));
      && (AllLexemes(all) ==> AllLexemes(x) && AllLexemes(y) && AllLexemes(z))
      && (Spelled(all) <==> Spelled(head) && Spelled(x) && Spelled(y) && Spelled(z))
  {
    hide AllLexemes, Spelled;
    var last := z + [Punct(RParen)];
    var middle := y + ([Punct(Comma)] + last);
    PunctSpelled(RParen);
    Joined(z, [Punct(RParen)]);
    Separated(y, last, Comma);
    Separated(x, middle, Comma);
    Joined(head, x + ([Punct(Comma)] + middle));
  }

  lemma {:induction false} CallBuilt(k: nat, c: Cst)
    requires c.Call? && Layered(k, c) && AllLexemes(Yield(c))
    ensures Built(Meaning(c)) && (Named(Meaning(c)) <==> Spelled(Yield(c)))
    decreases c, 0
  {
    hide AllLexemes, Spelled, KeywordOf, IsIdentText, IsStoredName, IsLexeme, Yield, Layered, Built, Named, AllBuilt, AllNamed;
    CallParts(k, c);
    ArgsBuilt(c.args);
    CallIs(Name(c.tok), Meanings(c.args));
  }

  lemma CallIs(name: string, args: seq<Node>)
    requires IsStoredName(name) && KeywordOf(name) == NotKeyword && AllBuilt(args)
    ensures Built(UnsupportedExpr(name, args))
    ensures Named(UnsupportedExpr(name, args)) <==> IsIdentText(name) && AllNamed(args)
  {
    hide IsStoredName, KeywordOf, IsIdentText;
  }

  lemma CallParts(k: nat, c: Cst)
    requires c.Call? && Layered(k, c) && AllLexemes(Yield(c))
    ensures AllLexemes(YieldArgs(c.args)) && forall i :: 0 <= i < |c.args| ==> Layered(0, c.args[i])
    ensures IsStoredName(Name(c.tok)) && KeywordOf(Name(c.tok)) == NotKeyword
    ensures Spelled(Yield(c)) <==> IsIdentText(Name(c.tok)) && Spelled(YieldArgs(c.args))
  {
    hide AllLexemes, Spelled, KeywordOf, IsIdentText, IsStoredName, IsLexeme;
    HeadSpelled(c.tok);
    Enclosed([c.tok, Punct(LParen)], YieldArgs(c.args));
    LoweredIsName(c.tok);
  }

  ghost predicate AllBuilt(ns: seq<Node>) { forall i :: 0 <= i < |ns| ==> Built(ns[i]) }

  ghost predicate AllNamed(ns: seq<Node>) { forall i :: 0 <= i < |ns| ==> Named(ns[i]) }

  lemma OneMoreNode(n: Node, rest: seq<Node>)
    ensures AllBuilt([n] + rest) <==> Built(n) && AllBuilt(rest)
    ensures AllNamed([n] + rest) <==> Named(n) && AllNamed(rest)
  {
    hide Built, Named;
    var ns := [n] + rest;
    assert ns[0] == n && forall i :: 0 <= i < |rest| ==> ns[i + 1] == rest[i];
    assert forall i :: 0 < i < |ns| ==> ns[i] == rest[i - 1];
  }

  lemma {:induction false} ArgsBuilt(args: seq<Cst>)
    requires AllLexemes(YieldArgs(args)) && forall i :: 0 <= i < |args| ==> Layered(0, args[i])
    ensures AllBuilt(Meanings(args)) && (AllNamed(Meanings(args)) <==> Spelled(YieldArgs(args)))
    decreases args
  {
    hide AllLexemes, Spelled, Built, Named, Layered, Meaning, Yield, AllBuilt, AllNamed;
    if args == [] {
      NothingSpelled();
      assert Meanings(args) == [];
    } else {
      if |args| > 1 {
        Separated(Yield(args[0]), YieldArgs(args[1..]), Comma);
      } else {
        NothingSpelled();
        assert YieldArgs(args[1..]) == [];
      }
      MeaningBuilt(0, args[0]);
      ArgsBuilt(args[1..]);
      OneMoreNode(Meaning(args[0]), Meanings(args[1..]));
    }
  }

  lemma NothingSpelled()
    ensures Spelled([]) && AllLexemes([]) && AllBuilt([]) && AllNamed([])
  {
  }

  /** Whatever parses is built, and its names can be written exactly when those of the source's tokens can. */
  lemma ParseBuilds(source: string, n: Node)
    requires ParseSource(source) == Ok(n)
    ensures Built(n) && (Named(n) <==> Spelled(Lex(source).toks))
  {
    hide Built, Named, Spelled;
    ParseDecidesGrammar(source, n);
    LexProducesLexemes(source);
    var c :| Layered(0, c) && Yield(c) == Lex(source).toks && Meaning(c) == n;
    MeaningBuilt(0, c);
  }

  // ---------- The printer ----------

  /** The level of a binary operator and the token that writes it. */
  function OperatorToken(op: Operator): (r: (nat, TokenKind))
    requires IsBinary(op)
    ensures r.0 < UNARY && BinaryOp(r.0, r.1) == Some(op)
  {
    match op
    case Or => (0, OrOr)
    case And => (1, AndAnd)
    case Eq => (2, EqEq) case Neq => (2, NotEq) case AssignEq => (2, Equal)
    case Lt => (3, Less) case Lte => (3, LessEq) case Gt => (3, Greater) case Gte => (3, GreaterEq)
    case Add => (4, Plus) case Sub => (4, Minus)
    case Mul => (5, Star) case Div => (5, Slash) case Mod => (5, Percent)
  }

  /** The level of the outermost operator of a tree. */
  function LevelOf(n: Node): nat
  {
    match n
    case BinaryExpr(op, _, _) => if IsBinary(op) then OperatorToken(op).0 else PRIMARY
    case UnaryExpr(_, _) => UNARY
    case _ => PRIMARY
  }

  /** A keyword as the printer writes it. */
  function NameToken(k: Keyword): Token
  {
    Token(Ident,
      match k
      case KwVar => "var" case KwRandom => "random" case KwCommand => "command"
      case KwPos => "pos" case KwStateType => "statetype" case KwCond => "cond" case NotKeyword => "")
  }

  /** The derivation of n where level k is expected: parenthesised only when its operator binds more loosely. */
  function Derive(k: nat, n: Node): Cst
    requires Built(n)
    decreases n, 1
  {
    if LevelOf(n) < k then Group(DeriveBare(n)) else DeriveBare(n)
  }

  function DeriveBare(n: Node): Cst
    requires Built(n)
    decreases n, 0
  {
    match n
    case IntLiteral(v) => Atom(Token(Int, PrintDecimal(v)))
    case StringLiteral(s) => Atom(Token(Str, Quote(s)))
    case UnaryExpr(op, operand) => Prefix(if op == Not then Bang else Minus, Derive(UNARY, operand))
    case BinaryExpr(op, l, r) =>
      var (level, kind) := OperatorToken(op);
      Infix(level, Derive(level, l), kind, Derive(level + 1, r))
    case VarExpr(i) => VarCall(NameToken(KwVar), Derive(0, i))
    case RandomExpr => Atom(NameToken(KwRandom))
    case CommandExpr => Atom(NameToken(KwCommand))
    case PosExpr(axis) => Axis(NameToken(KwPos), Token(Ident, axis))
    case StateTypeExpr => Atom(NameToken(KwStateType))
    case CondExpr(c, a, b) => CondCall(NameToken(KwCond), Derive(0, c), Derive(0, a), Derive(0, b))
    case UnsupportedExpr(name, args) =>
      if args == [] then Atom(Token(Ident, name)) else Call(Token(Ident, name), DeriveArgs(args))
  }

  function DeriveArgs(args: seq<Node>): (cs: seq<Cst>)
    requires forall i :: 0 <= i < |args| ==> Built(args[i])
    ensures |cs| == |args|
    decreases args
  {
    if args == [] then [] else [Derive(0, args[0])] + DeriveArgs(args[1..])
  }

  function Print(n: Node): string
    requires Built(n)
  {
    Join(Yield(Derive(0, n)))
  }

  lemma NameTokenCorrect(k: Keyword)
    requires k != NotKeyword
    ensures IsName(NameToken(k), k) && IsLexeme(NameToken(k))
  {
    hide IsLowered;
    var w := NameToken(k).text;
    assert forall i :: 0 <= i < |w| ==> 'a' <= w[i] <= 'z';
    assert IsAscii(w) && Lower(w) == w;
    ToLowerAscii(w);
  }

  lemma LexemeConcat(a: seq<Token>, b: seq<Token>)
    requires AllLexemes(a) && AllLexemes(b)
    ensures AllLexemes(a + b)
  {
  }

  /** c is a derivation of level k that stands for n and is made of lexemes. */
  ghost predicate Writes(k: nat, c: Cst, n: Node)
  {
    Layered(k, c) && Meaning(c) == n && AllLexemes(Yield(c))
  }

  lemma PunctLexeme(k: TokenKind)
    requires Spelling(k) != ""
    ensures AllLexemes([Punct(k)])
  {
    assert IsLexeme(Punct(k));
  }

  lemma CallHead(tok: Token)
    requires IsLexeme(tok)
    ensures AllLexemes([tok, Punct(LParen)])
  {
    assert IsLexeme(Punct(LParen));
  }

  /** Tokens put between two punctuation tokens, or after one. */
  lemma Bracketed(left: seq<Token>, ts: seq<Token>, right: TokenKind)
    requires AllLexemes(left) && AllLexemes(ts) && Spelling(right) != ""
    ensures AllLexemes(left + (ts + [Punct(right)]))
  {
    PunctLexeme(right);
    LexemeConcat(ts, [Punct(right)]);
    LexemeConcat(left, ts + [Punct(right)]);
  }

  lemma AfterComma(left: seq<Token>, ts: seq<Token>)
    requires AllLexemes(left) && AllLexemes(ts)
    ensures AllLexemes(left + ([Punct(Comma)] + ts))
  {
    PunctLexeme(Comma);
    LexemeConcat([Punct(Comma)], ts);
    LexemeConcat(left, [Punct(Comma)] + ts);
  }

  lemma WritesPrefix(op: Operator, c: Cst, n: Node)
    requires (op == Not || op == Sub) && Writes(UNARY, c, n)
    ensures Writes(UNARY, Prefix(if op == Not then Bang else Minus, c), UnaryExpr(op, n))
  {
    hide AllLexemes;
    var kind := if op == Not then Bang else Minus;
    PunctLexeme(kind);
    LexemeConcat([Punct(kind)], Yield(c));
  }

  lemma WritesInfix(op: Operator, l: Cst, m: Node, r: Cst, n: Node)
    requires IsBinary(op) && Writes(OperatorToken(op).0, l, m) && Writes(OperatorToken(op).0 + 1, r, n)
    ensures var (level, kind) := OperatorToken(op);
      Writes(level, Infix(level, l, kind, r), BinaryExpr(op, m, n))
  {
    hide OperatorToken, BinaryOp, AllLexemes, Layered, Meaning;
    var (level, kind) := OperatorToken(op);
    InfixTree(level, l, kind, r);
    OperatorSpelled(level, kind);
    PunctLexeme(kind);
    LexemeConcat([Punct(kind)], Yield(r));
    LexemeConcat(Yield(l), [Punct(kind)] + Yield(r));
  }

  lemma WritesVar(c: Cst, n: Node)
    requires Writes(0, c, n)
    ensures Writes(PRIMARY, VarCall(NameToken(KwVar), c), VarExpr(n))
  {
    hide AllLexemes, NameToken, IsName, IsLexeme;
    NameTokenCorrect(KwVar);
    CallHead(NameToken(KwVar));
    Bracketed([NameToken(KwVar), Punct(LParen)], Yield(c), RParen);
  }

  lemma WritesLeaf(n: Node)
    requires Built(n) && (n.IntLiteral? || n.StringLiteral? || n.RandomExpr? || n.CommandExpr? || n.StateTypeExpr?)
    ensures Writes(PRIMARY, DeriveBare(n), n)
  {
    hide Writes, KeywordOf, Quote, Unquote, PrintDecimal;
    match n
    case IntLiteral(v) =>
      DecimalRoundTrip(v);
      WritesAtom(Token(Int, PrintDecimal(v)), n);
    case StringLiteral(s) =>
      QuoteRoundTrip(s);
      WritesAtom(Token(Str, Quote(s)), n);
    case RandomExpr => WritesKeyword(KwRandom);
    case CommandExpr => WritesKeyword(KwCommand);
    case StateTypeExpr => WritesKeyword(KwStateType);
  }

  lemma WritesKeyword(k: Keyword)
    requires k == KwRandom || k == KwCommand || k == KwStateType
    ensures Writes(PRIMARY, Atom(NameToken(k)),
                   match k case KwRandom => RandomExpr case KwCommand => CommandExpr case _ => StateTypeExpr)
  {
    hide KeywordOf, IsLexeme;
    NameTokenCorrect(k);
    assert AllLexemes([NameToken(k)]);
  }

  lemma WritesAtom(tok: Token, n: Node)
    requires IsLexeme(tok)
    requires (tok.kind == Int && n.IntLiteral? && ParseInt(tok.text) == n.value) || (tok.kind == Str && n.StringLiteral? && Unquote(tok.text) == Some(n.text))
    ensures Writes(PRIMARY, Atom(tok), n)
  {
    hide ParseInt, Unquote, IsLexeme;
    assert AllLexemes([tok]);
  }

  lemma WritesAxis(axis: string)
    requires IsNameText(axis)
    ensures Writes(PRIMARY, Axis(NameToken(KwPos), Token(Ident, axis)), PosExpr(axis))
  {
    NameTokenCorrect(KwPos);
    assert IsLexeme(Token(Ident, axis)) && ToLower(axis) == axis;
  }

  lemma WritesCond(c: Cst, l: Node, a: Cst, m: Node, b: Cst, n: Node)
    requires Writes(0, c, l) && Writes(0, a, m) && Writes(0, b, n)
    ensures Writes(PRIMARY, CondCall(NameToken(KwCond), c, a, b), CondExpr(l, m, n))
  {
    hide NameToken, AllLexemes, IsLexeme, IsName, Yield;
    NameTokenCorrect(KwCond);
    CondLexemes(NameToken(KwCond), c, a, b);
  }

  lemma CondLexemes(tok: Token, c: Cst, a: Cst, b: Cst)
    requires IsLexeme(tok) && AllLexemes(Yield(c)) && AllLexemes(Yield(a)) && AllLexemes(Yield(b))
    ensures AllLexemes(Yield(CondCall(tok, c, a, b)))
  {
    hide AllLexemes, IsLexeme, Yield;
    PunctLexeme(RParen);
    var last := Yield(b) + [Punct(RParen)];
    LexemeConcat(Yield(b), [Punct(RParen)]);
    AfterComma(Yield(a), last);
    AfterComma(Yield(c), Yield(a) + ([Punct(Comma)] + last));
    CallHead(tok);
    LexemeConcat([tok, Punct(LParen)], Yield(c) + ([Punct(Comma)] + (Yield(a) + ([Punct(Comma)] + last))));
    CondYieldIs(tok, c, a, b);
  }

  lemma CallLexemes(tok: Token, cs: seq<Cst>)
    requires IsLexeme(tok) && AllLexemes(YieldArgs(cs))
    ensures AllLexemes(Yield(Call(tok, cs)))
  {
    CallHead(tok);
    Bracketed([tok, Punct(LParen)], YieldArgs(cs), RParen);
  }

  lemma CallLayered(tok: Token, cs: seq<Cst>)
    requires IsName(tok, NotKeyword) && forall i :: 0 <= i < |cs| ==> Layered(0, cs[i])
    ensures Layered(PRIMARY, Call(tok, cs))
  {
  }

  lemma WritesCall(tok: Token, cs: seq<Cst>)
    requires IsName(tok, NotKeyword) && IsLexeme(tok)
    requires (forall i :: 0 <= i < |cs| ==> Layered(0, cs[i])) && AllLexemes(YieldArgs(cs))
    ensures Writes(PRIMARY, Call(tok, cs), UnsupportedExpr(Name(tok), Meanings(cs)))
  {
    CallLexemes(tok, cs);
    CallLayered(tok, cs);
  }

  lemma WritesName(tok: Token)
    requires IsName(tok, NotKeyword) && IsLexeme(tok)
    ensures Writes(PRIMARY, Atom(tok), UnsupportedExpr(Name(tok), []))
  {
    assert AllLexemes(Yield(Atom(tok)));
  }

  lemma NameTextToken(name: string)
    requires IsNameText(name) && KeywordOf(name) == NotKeyword
    ensures var tok := Token(Ident, name); IsLexeme(tok) && Name(tok) == name && IsName(tok, NotKeyword)
  {
  }

  /** The printed derivation is one of the grammar, stands for the tree, and is made of lexemes. */
  lemma {:induction false} DeriveCorrect(k: nat, n: Node)
    requires Built(n) && Named(n) && k <= PRIMARY
    ensures Writes(k, Derive(k, n), n)
    decreases n, 1
  {
    hide DeriveBare, LevelOf, Built, Named, AllLexemes, IsLexeme;
    DeriveBareCorrect(n);
    var c := DeriveBare(n);
    if LevelOf(n) < k {
      LayeredMono(0, LevelOf(n), c);
      PunctLexeme(LParen);
      Bracketed([Punct(LParen)], Yield(c), RParen);
    } else {
      LayeredMono(k, LevelOf(n), c);
    }
  }

  lemma {:induction false} DeriveBareCorrect(n: Node)
    requires Built(n) && Named(n)
    ensures Writes(LevelOf(n), DeriveBare(n), n)
    decreases n, 0
  {
    hide Writes, Derive, DeriveArgs, KeywordOf, NameToken, OperatorToken, IsLexeme, IsIdentText;
    match n
    case UnaryExpr(op, operand) =>
      DeriveCorrect(UNARY, operand);
      WritesPrefix(op, Derive(UNARY, operand), operand);
    case BinaryExpr(op, l, r) =>
      var level := OperatorToken(op).0;
      DeriveCorrect(level, l);
      DeriveCorrect(level + 1, r);
      WritesInfix(op, Derive(level, l), l, Derive(level + 1, r), r);
    case VarExpr(i) =>
      DeriveCorrect(0, i);
      WritesVar(Derive(0, i), i);
    case PosExpr(axis) =>
      WritesAxis(axis);
    case CondExpr(c, a, b) =>
      DeriveCorrect(0, c);
      DeriveCorrect(0, a);
      DeriveCorrect(0, b);
      WritesCond(Derive(0, c), c, Derive(0, a), a, Derive(0, b), b);
    case UnsupportedExpr(name, args) =>
      DeriveArgsCorrect(args);
      NameTextToken(name);
      WritesName(Token(Ident, name));
      WritesCall(Token(Ident, name), DeriveArgs(args));
    case _ =>
      WritesLeaf(n);
  }

  lemma {:induction false} DeriveArgsCorrect(args: seq<Node>)
    requires forall i :: 0 <= i < |args| ==> Built(args[i]) && Named(args[i])
    ensures var cs := DeriveArgs(args);
      && (forall i :: 0 <= i < |cs| ==> Layered(0, cs[i]))
      && Meanings(cs) == args && AllLexemes(YieldArgs(cs))
    decreases args
  {
    if args != [] {
      DeriveCorrect(0, args[0]);
      DeriveArgsCorrect(args[1..]);
      var cs := DeriveArgs(args);
      assert cs[1..] == DeriveArgs(args[1..]);
      AfterComma(Yield(cs[0]), YieldArgs(cs[1..]));
      assert args == [args[0]] + args[1..];
    }
  }

  /** The round trip: every tree the parser can build, and whose names can be written, is printed as text that parses to it. */
  lemma PrintParse(n: Node)
    requires Built(n) && Named(n)
    ensures ParseSource(Print(n)) == Ok(n)
  {
    var c := Derive(0, n);
    DeriveCorrect(0, n);
    LexJoin(Yield(c));
    ParseDecidesGrammar(Print(n), n);
  }

  // ---------- Names that cannot be written ----------

  /** A token as the printer writes it: a lexeme, or a name. */
  predicate IsWritten(t: Token) { IsLexeme(t) || (t.kind == Ident && IsLowered(t.text)) }

  predicate AllWritten(ts: seq<Token>) { forall t :: t in ts ==> IsWritten(t) }

  lemma RunAt(s: string, p: char -> bool)
    ensures forall i :: 0 <= i < Run(s, p) ==> p(s[i])
  {
    var n := Run(s, p);
    forall i | 0 <= i < n ensures p(s[i]) {
      assert s[..n][i] == s[i];
    }
  }

  /** A run that ends inside s does not see what follows s. */
  lemma RunStops(s: string, r: string, p: char -> bool, bad: nat)
    requires bad < |s| && !p(s[bad])
    ensures Run(s + r, p) == Run(s, p) <= bad
  {
    var x := s + r;
    RunAt(x, p);
    RunAt(s, p);
    assert forall j :: 0 <= j < |s| ==> x[j] == s[j];
  }

  /** Text with a byte that no token can hold is not lexed without an error. */
  lemma {:induction false} BadNameFails(s: string, r: string, bad: nat)
    requires All(s, IsNameByte) && bad < |s| && !IsIdentPart(s[bad])
    ensures Lex(s + r).errs != []
    decreases |s|
  {
    hide TurnOf, IsNameByte, IsIdentPart;
    var x := s + r;
    NameTurn(s, r, bad);
    var n := TurnOf(x).taken;
    if n <= bad && TurnOf(x).err == [] {
      assert x[n..] == s[n..] + r;
      BadNameFails(s[n..], r, bad - n);
    }
  }

  lemma NameTurn(s: string, r: string, bad: nat)
    requires All(s, IsNameByte) && bad < |s| && !IsIdentPart(s[bad])
    ensures var t := TurnOf(s + r); t.err != [] || t.taken <= bad
  {
    hide Symbol, StringEnd, Spelling;
    var x := s + r;
    assert x[0] == s[0] && IsNameByte(s[0]);
    if IsIdentPart(s[0]) {
      RunStops(s, r, if IsDigit(s[0]) then IsDigit else IsIdentPart, bad);
    } else {
      NoSymbol(x);
    }
  }

  lemma NoSymbol(x: string)
    requires x != "" && x[0] as int >= 0x80
    ensures Symbol(x) == EOF
  {
  }

  lemma {:induction false} BadTokenFails(ts: seq<Token>)
    requires AllWritten(ts) && !AllLexemes(ts)
    ensures Lex(Join(ts)).errs != []
  {
    hide TurnOf, IsLexeme, IsLowered;
    var t, tail := ts[0], if |ts| == 1 then "" else " " + Join(ts[1..]);
    assert Join(ts) == t.text + tail;
    assert ts == [t] + ts[1..];
    assert t in ts;
    if IsLexeme(t) {
      LexOne(t, tail);
      LexAhead(t, tail);
      assert tail[1..] == Join(ts[1..]);
      SpaceAhead(Join(ts[1..]));
      BadTokenFails(ts[1..]);
    } else {
      var bad := NoIdent(t);
      BadNameFails(t.text, tail, bad);
    }
  }

  lemma SpaceAhead(r: string)
    ensures Lex(" " + r).errs == Lex(r).errs
  {
    assert (" " + r)[1..] == r;
    assert TurnOf(" " + r) == Turn([], [], 1);
  }

  lemma NoIdent(t: Token) returns (bad: nat)
    requires t.kind == Ident && IsLowered(t.text) && !IsLexeme(t)
    ensures All(t.text, IsNameByte) && bad < |t.text| && !IsIdentPart(t.text[bad])
  {
    assert IsNameByte(t.text[0]);
    bad :| bad < |t.text| && !IsIdentPart(t.text[bad]);
  }

  lemma WrittenConcat(a: seq<Token>, b: seq<Token>)
    requires AllWritten(a) && AllWritten(b)
    ensures AllWritten(a + b)
    ensures AllLexemes(a + b) <==> AllLexemes(a) && AllLexemes(b)
  {
    hide IsLexeme, IsLowered;
    assert forall t :: t in a || t in b ==> t in a + b;
  }

  lemma WrittenPunct(ts: seq<Token>)
    requires forall t :: t in ts ==> Spelling(t.kind) != "" && t == Punct(t.kind)
    ensures AllWritten(ts) && AllLexemes(ts)
  {
  }

  lemma WrittenHead(tok: Token)
    requires IsWritten(tok)
    ensures AllWritten([tok, Punct(LParen)]) && (AllLexemes([tok, Punct(LParen)]) <==> IsLexeme(tok))
  {
    assert IsLexeme(Punct(LParen));
    assert tok in [tok, Punct(LParen)];
  }

  /** The tokens of a printed tree are written tokens, and all of them lexemes exactly when its names can be written. */
  lemma {:induction false} DeriveWritten(k: nat, n: Node)
    requires Built(n)
    ensures AllWritten(Yield(Derive(k, n))) && (AllLexemes(Yield(Derive(k, n))) <==> Named(n))
    decreases n, 1
  {
    hide Named, Built, AllWritten, AllLexemes;
    DeriveBareWritten(n);
    if LevelOf(n) < k {
      var ts := Yield(DeriveBare(n));
      WrittenPunct([Punct(LParen)]);
      WrittenPunct([Punct(RParen)]);
      WrittenConcat(ts, [Punct(RParen)]);
      WrittenConcat([Punct(LParen)], ts + [Punct(RParen)]);
    }
  }

  lemma {:induction false} DeriveBareWritten(n: Node)
    requires Built(n)
    ensures AllWritten(Yield(DeriveBare(n))) && (AllLexemes(Yield(DeriveBare(n))) <==> Named(n))
    decreases n, 0
  {
    hide Derive, AllWritten, AllLexemes, IsStoredName, KeywordOf, IsIdentText, IsWritten, OperatorToken;
    match n
    case UnaryExpr(op, operand) =>
      var kind := if op == Not then Bang else Minus;
      DeriveWritten(UNARY, operand);
      WrittenPunct([Punct(kind)]);
      WrittenConcat([Punct(kind)], Yield(Derive(UNARY, operand)));
    case BinaryExpr(op, l, r) =>
      var (level, kind) := OperatorToken(op);
      DeriveWritten(level, l);
      DeriveWritten(level + 1, r);
      OperatorSpelled(level, kind);
      WrittenPunct([Punct(kind)]);
      WrittenConcat([Punct(kind)], Yield(Derive(level + 1, r)));
      WrittenConcat(Yield(Derive(level, l)), [Punct(kind)] + Yield(Derive(level + 1, r)));
    case VarExpr(i) =>
      DeriveWritten(0, i);
      WrittenVar(Derive(0, i));
    case CondExpr(c, a, b) =>
      DeriveWritten(0, c);
      DeriveWritten(0, a);
      DeriveWritten(0, b);
      WrittenCond(Derive(0, c), Derive(0, a), Derive(0, b));
    case UnsupportedExpr(name, args) =>
      DeriveArgsWritten(args);
      WrittenCall(name, DeriveArgs(args), args);
    case _ =>
      WrittenLeaf(n);
  }

  lemma WrittenLeaf(n: Node)
    requires Built(n)
    requires n.IntLiteral? || n.StringLiteral? || n.RandomExpr? || n.CommandExpr? || n.StateTypeExpr? || n.PosExpr?
    ensures AllWritten(Yield(DeriveBare(n))) && (AllLexemes(Yield(DeriveBare(n))) <==> Named(n))
  {
    hide KeywordOf, Quote, PrintDecimal, IsLowered;
    if n.PosExpr? {
      NameTokenCorrect(KwPos);
      var t := Token(Ident, n.axis);
      assert forall x :: x in Yield(DeriveBare(n)) <==> x == NameToken(KwPos) || x == t;
      assert IsLexeme(t) <==> IsIdentText(n.axis);
    } else {
      WritesLeaf(n);
    }
  }

  lemma WrittenVar(c: Cst)
    requires AllWritten(Yield(c))
    ensures var v := VarCall(NameToken(KwVar), c); AllWritten(Yield(v)) && (AllLexemes(Yield(v)) <==> AllLexemes(Yield(c)))
  {
    hide AllWritten, AllLexemes, NameToken, IsLowered;
    NameTokenCorrect(KwVar);
    WrittenHead(NameToken(KwVar));
    WrittenPunct([Punct(RParen)]);
    WrittenConcat(Yield(c), [Punct(RParen)]);
    WrittenConcat([NameToken(KwVar), Punct(LParen)], Yield(c) + [Punct(RParen)]);
  }

  lemma WrittenCond(c: Cst, a: Cst, b: Cst)
    requires AllWritten(Yield(c)) && AllWritten(Yield(a)) && AllWritten(Yield(b))
    ensures var v := CondCall(NameToken(KwCond), c, a, b);
      && AllWritten(Yield(v))
      && (AllLexemes(Yield(v)) <==> AllLexemes(Yield(c)) && AllLexemes(Yield(a)) && AllLexemes(Yield(b)))
  {
    hide AllWritten, AllLexemes, NameToken, IsLowered, Yield;
    NameTokenCorrect(KwCond);
    WrittenHead(NameToken(KwCond));
    WrittenPunct([Punct(RParen)]);
    var last := Yield(b) + [Punct(RParen)];
    WrittenConcat(Yield(b), [Punct(RParen)]);
    WrittenSeparated(Yield(a), last);
    WrittenSeparated(Yield(c), Yield(a) + ([Punct(Comma)] + last));
    WrittenConcat([NameToken(KwCond), Punct(LParen)], Yield(c) + ([Punct(Comma)] + (Yield(a) + ([Punct(Comma)] + last))));
    CondYieldIs(NameToken(KwCond), c, a, b);
  }

  lemma WrittenSeparated(a: seq<Token>, b: seq<Token>)
    requires AllWritten(a) && AllWritten(b)
    ensures AllWritten(a + ([Punct(Comma)] + b))
    ensures AllLexemes(a + ([Punct(Comma)] + b)) <==> AllLexemes(a) && AllLexemes(b)
  {
    hide AllWritten, AllLexemes;
    WrittenPunct([Punct(Comma)]);
    WrittenConcat([Punct(Comma)], b);
    WrittenConcat(a, [Punct(Comma)] + b);
  }

  lemma CondYieldIs(tok: Token, c: Cst, a: Cst, b: Cst)
    ensures var last := Yield(b) + [Punct(RParen)];
      Yield(CondCall(tok, c, a, b))
      == [tok, Punct(LParen)] + (Yield(c) + ([Punct(Comma)] + (Yield(a) + ([Punct(Comma)] + last))))
  {
    hide Punct;
  }

  lemma WrittenCall(name: string, cs: seq<Cst>, args: seq<Node>)
    requires IsStoredName(name) && |cs| == |args| && AllWritten(YieldArgs(cs))
    ensures var v := if args == [] then Atom(Token(Ident, name)) else Call(Token(Ident, name), cs);
      && AllWritten(Yield(v))
      && (AllLexemes(Yield(v)) <==> IsIdentText(name) && (args == [] || AllLexemes(YieldArgs(cs))))
  {
    hide IsLowered;
    var t := Token(Ident, name);
    assert IsLexeme(t) <==> IsIdentText(name);
    if args == [] {
      assert forall x :: x in Yield(Atom(t)) <==> x == t;
    } else {
      hide AllWritten, AllLexemes;
      WrittenHead(t);
      WrittenPunct([Punct(RParen)]);
      WrittenConcat(YieldArgs(cs), [Punct(RParen)]);
      WrittenConcat([t, Punct(LParen)], YieldArgs(cs) + [Punct(RParen)]);
    }
  }

  lemma {:induction false} DeriveArgsWritten(args: seq<Node>)
    requires forall i :: 0 <= i < |args| ==> Built(args[i])
    ensures AllWritten(YieldArgs(DeriveArgs(args)))
    ensures AllLexemes(YieldArgs(DeriveArgs(args))) <==> AllNamed(args)
    decreases args
  {
    hide Named, Built, IsLexeme, IsWritten, Derive;
    if args != [] {
      DeriveWritten(0, args[0]);
      DeriveArgsWritten(args[1..]);
      var cs := DeriveArgs(args);
      assert cs[1..] == DeriveArgs(args[1..]) && cs[0] == Derive(0, args[0]);
      var rest := YieldArgs(cs[1..]);
      WrittenPunct([Punct(Comma)]);
      WrittenConcat([Punct(Comma)], rest);
      WrittenConcat(Yield(cs[0]), [Punct(Comma)] + rest);
      assert args == [args[0]] + args[1..];
      OneMoreNode(args[0], args[1..]);
    }
  }

  /** A tree the parser can build survives printing and parsing exactly when its names can be written as identifiers. */
  lemma PrintParseIff(n: Node)
    requires Built(n)
    ensures ParseSource(Print(n)) == Ok(n) <==> Named(n)
  {
    hide Built, Named;
    if Named(n) {
      PrintParse(n);
    } else {
      DeriveWritten(0, n);
      BadTokenFails(Yield(Derive(0, n)));
    }
  }

  /**
   Printing what was parsed, and parsing it again, gives the same tree exactly when
   the lower-cased text of every identifier of the source is identifier text again.
   */
  lemma ParsePrintParse(source: string, n: Node)
    requires ParseSource(source) == Ok(n)
    ensures Built(n)
    ensures ParseSource(Print(n)) == Ok(n) <==> Spelled(Lex(source).toks)
  {
    ParseBuilds(source, n);
    PrintParseIff(n);
  }

  /** Sources with ASCII identifiers always survive. */
  lemma AsciiSurvives(source: string, n: Node)
    requires ParseSource(source) == Ok(n)
    requires forall t :: t in Lex(source).toks && t.kind == Ident ==> IsAscii(t.text)
    ensures Built(n) && ParseSource(Print(n)) == Ok(n)
  {
    hide Built, ParseSource, Print, Lex, IsIdentText, IsAscii, ToLower, IsLexeme;
    LexProducesLexemes(source);
    forall t | t in Lex(source).toks && t.kind == Ident ensures IsIdentText(ToLower(t.text)) {
      AsciiIdent(t);
    }
    ParsePrintParse(source, n);
  }

  lemma AsciiIdent(t: Token)
    requires IsLexeme(t) && t.kind == Ident && IsAscii(t.text)
    ensures IsIdentText(ToLower(t.text))
  {
    ToLowerAscii(t.text);
  }

  /** An identifier on its own is an unsupported node of its lower-cased text. */
  lemma OneName(text: string)
    requires IsIdentText(text) && KeywordOf(ToLower(text)) == NotKeyword
    ensures ParseSource(text) == Ok(UnsupportedExpr(ToLower(text), [])) && Lex(text).toks == [Token(Ident, text)]
  {
    var t := Token(Ident, text);
    assert Join([t]) == text;
    LexJoin([t]);
    WritesOneName(t);
    ParseDecidesGrammar(text, UnsupportedExpr(ToLower(text), []));
  }

  lemma WritesOneName(t: Token)
    requires IsLexeme(t) && t.kind == Ident && KeywordOf(ToLower(t.text)) == NotKeyword
    ensures var c := Atom(t); Layered(0, c) && Yield(c) == [t] && Meaning(c) == UnsupportedExpr(ToLower(t.text), [])
  {
    hide KeywordOf;
  }

  /** A lone identifier survives exactly when its lower-cased text is identifier text. */
  lemma OneNameSurvivesIff(text: string)
    requires IsIdentText(text) && KeywordOf(ToLower(text)) == NotKeyword
    ensures ParseSource(text).Ok? && Built(ParseSource(text).value)
    ensures ParseSource(Print(ParseSource(text).value)) == ParseSource(text) <==> IsIdentText(ToLower(text))
  {
    hide Built, KeywordOf;
    OneName(text);
    ParsePrintParse(text, UnsupportedExpr(ToLower(text), []));
  }

  /** The name with bytes C4 AA does not, given that it is lower-cased to C4 AB. */
  lemma MacronExample()
    requires ToLower("\U{C4}\U{AA}") == "\U{C4}\U{AB}"
    ensures ParseSource("\U{C4}\U{AA}").Ok? && Built(ParseSource("\U{C4}\U{AA}").value)
    ensures ParseSource(Print(ParseSource("\U{C4}\U{AA}").value)) != ParseSource("\U{C4}\U{AA}")
  {
    hide Built, ParseSource, Print;
    var text, name := "\U{C4}\U{AA}", "\U{C4}\U{AB}";
    assert IsIdentText(text) && !IsIdentPart(name[1]);
    assert KeywordOf(name) == NotKeyword;
    OneNameSurvivesIff(text);
  }

  /** Minimal parentheses: no derivation of the tree at that level has fewer tokens than the printed one. */
  lemma {:induction false} PrintMinimal(k: nat, c: Cst)
    requires k <= PRIMARY && Layered(k, c) && Built(Meaning(c))
    ensures |Yield(Derive(k, Meaning(c)))| <= |Yield(c)|
    decreases c, 2
  {
    hide DeriveBare, LevelOf, Built, Layered;
    if c.Group? {
      assert Meaning(c) == Meaning(c.inner) && |Yield(c)| == |Yield(c.inner)| + 2;
      GroupInside(k, c);
      PrintMinimal(0, c.inner);
      BareOrGroup(k, Meaning(c));
    } else {
      BareMinimal(k, c);
    }
  }

  lemma GroupInside(k: nat, c: Cst)
    requires c.Group? && Layered(k, c)
    ensures Layered(0, c.inner)
  {
  }

  /** The printed tree of a derivation that is not a parenthesis needs none either. */
  lemma {:induction false} BareMinimal(k: nat, c: Cst)
    requires k <= PRIMARY && Layered(k, c) && Built(Meaning(c)) && !c.Group?
    ensures LevelOf(Meaning(c)) >= k && |Yield(DeriveBare(Meaning(c)))| <= |Yield(c)|
    decreases c, 1
  {
    hide DeriveBare, Derive, Yield;
    match c
    case Prefix(kind, operand) => PrefixMinimal(c);
    case Infix(level, left, kind, right) => InfixMinimal(k, c);
    case VarCall(_, arg) => VarMinimal(c);
    case CondCall(_, c0, a, b) => CondMinimal(c);
    case Call(_, args) => CallMinimal(c);
    case _ => LeafMinimal(c);
  }

  lemma LeafMinimal(c: Cst)
    requires (c.Atom? || c.RandomCall? || c.Axis?) && Layered(PRIMARY, c) && Built(Meaning(c))
    ensures LevelOf(Meaning(c)) == PRIMARY && |Yield(DeriveBare(Meaning(c)))| <= |Yield(c)|
  {
    hide KeywordOf, Built, Quote, PrintDecimal, Unquote, ParseInt, Derive;
  }

  lemma {:induction false} PrefixMinimal(c: Cst)
    requires c.Prefix? && Layered(UNARY, c) && Built(Meaning(c))
    ensures |Yield(DeriveBare(Meaning(c)))| <= |Yield(c)|
    decreases c, 0
  {
    hide Derive;
    PrintMinimal(UNARY, c.operand);
  }

  lemma {:induction false} VarMinimal(c: Cst)
    requires c.VarCall? && Layered(PRIMARY, c) && Built(Meaning(c))
    ensures |Yield(DeriveBare(Meaning(c)))| <= |Yield(c)|
    decreases c, 0
  {
    hide Derive, IsName;
    PrintMinimal(0, c.arg);
  }

  lemma {:induction false} CallMinimal(c: Cst)
    requires c.Call? && Layered(PRIMARY, c) && Built(Meaning(c))
    ensures |Yield(DeriveBare(Meaning(c)))| <= |Yield(c)|
    decreases c, 0
  {
    hide Derive, IsName, DeriveArgs, YieldArgs;
    MeaningsAt(c.args);
    ArgsMinimal(c.args);
  }

  lemma {:induction false} InfixMinimal(k: nat, c: Cst)
    requires k <= PRIMARY && c.Infix? && Layered(k, c) && Built(Meaning(c))
    ensures LevelOf(Meaning(c)) == c.level && |Yield(DeriveBare(Meaning(c)))| <= |Yield(c)|
    decreases c, 0
  {
    hide Derive, DeriveBare, OperatorToken, BinaryOp, Yield;
    OperatorTokenInverse(c.level, c.kind);
    PrintMinimal(c.level, c.left);
    PrintMinimal(c.level + 1, c.right);
    var l, r := Meaning(c.left), Meaning(c.right);
    BinaryDerived(BinaryOp(c.level, c.kind).value, l, r);
    InfixLength(c.level, c.left, c.kind, c.right);
    InfixLength(c.level, Derive(c.level, l), c.kind, Derive(c.level + 1, r));
  }

  lemma BinaryDerived(op: Operator, l: Node, r: Node)
    requires Built(BinaryExpr(op, l, r))
    ensures var (level, kind) := OperatorToken(op);
      DeriveBare(BinaryExpr(op, l, r)) == Infix(level, Derive(level, l), kind, Derive(level + 1, r))
  {
    hide OperatorToken, Derive;
  }

  lemma InfixLength(level: nat, l: Cst, kind: TokenKind, r: Cst)
    ensures |Yield(Infix(level, l, kind, r))| == |Yield(l)| + 1 + |Yield(r)|
  {
  }

  lemma OperatorTokenInverse(level: nat, kind: TokenKind)
    requires BinaryOp(level, kind).Some?
    ensures var op := BinaryOp(level, kind).value; IsBinary(op) && OperatorToken(op) == (level, kind)
  {
  }

  lemma {:induction false} CondMinimal(c: Cst)
    requires c.CondCall? && Layered(PRIMARY, c) && Built(Meaning(c))
    ensures |Yield(DeriveBare(Meaning(c)))| <= |Yield(c)|
    decreases c, 0
  {
    PrintMinimal(0, c.c);
    PrintMinimal(0, c.a);
    PrintMinimal(0, c.b);
    CondLength(c);
    CondLength(DeriveBare(Meaning(c)));
  }

  lemma CondLength(c: Cst)
    requires c.CondCall?
    ensures |Yield(c)| == 5 + |Yield(c.c)| + |Yield(c.a)| + |Yield(c.b)|
  {
  }

  /** Parentheses cost two tokens. */
  lemma BareOrGroup(k: nat, n: Node)
    requires Built(n)
    ensures |Yield(Derive(k, n))| <= |Yield(Derive(0, n))| + 2
  {
  }

  lemma {:induction false} ArgsMinimal(args: seq<Cst>)
    requires forall i :: 0 <= i < |args| ==> Layered(0, args[i]) && Built(Meaning(args[i]))
    ensures Meanings(args) == [] <==> args == []
    ensures forall i :: 0 <= i < |args| ==> Built(Meanings(args)[i])
    ensures |YieldArgs(DeriveArgs(Meanings(args)))| <= |YieldArgs(args)|
    decreases args
  {
    if args != [] {
      PrintMinimal(0, args[0]);
      ArgsMinimal(args[1..]);
      var ns := Meanings(args);
      assert ns[1..] == Meanings(args[1..]);
      assert DeriveArgs(ns)[1..] == DeriveArgs(ns[1..]);
    }
  }
}
