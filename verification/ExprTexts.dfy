/**
 Expressions as they are written: the spelling of every operator and keyword, which
 operators bind more tightly, and that operators of one strength associate to the left.
 */
module ExprTexts {
  import opened Wrappers
  import opened Text
  import opened ExprSyntax
  import opened ExprLexer
  import opened StringLiterals
  import opened LetterCase
  import opened ExprParser
  import opened ExprGrammar
  import opened ExprSoundness
  import opened ExprPrinter

  function OperatorText(op: Operator): string
  {
    match op
    case Or => "||" case And => "&&"
    case Eq => "==" case Neq => "!=" case AssignEq => "="
    case Lt => "<" case Lte => "<=" case Gt => ">" case Gte => ">="
    case Add => "+" case Sub => "-"
    case Mul => "*" case Div => "/" case Mod => "%"
    case Not => "!"
  }

  /** How tightly a binary operator binds. */
  function Strength(op: Operator): nat
  {
    match op
    case Or => 0
    case And => 1
    case Eq => 2 case Neq => 2 case AssignEq => 2
    case Lt => 3 case Lte => 3 case Gt => 3 case Gte => 3
    case Add => 4 case Sub => 4
    case Mul => 5 case Div => 5 case Mod => 5
    case Not => 6
  }

  /** A tree written out, with every operand in parentheses. */
  function FullText(n: Node): string
    requires Built(n)
  {
    match n
    case IntLiteral(v) => PrintDecimal(v)
    case StringLiteral(s) => Quote(s)
    case UnaryExpr(op, operand) => OperatorText(op) + " " + InParens(FullText(operand))
    case BinaryExpr(op, l, r) => InParens(FullText(l)) + " " + OperatorText(op) + " " + InParens(FullText(r))
    case VarExpr(i) => "var" + " " + InParens(FullText(i))
    case RandomExpr => "random"
    case CommandExpr => "command"
    case PosExpr(axis) => "pos" + " " + axis
    case StateTypeExpr => "statetype"
    case CondExpr(c, a, b) =>
      "cond" + " " + InParens(FullText(c) + " " + "," + " " + (FullText(a) + " " + "," + " " + FullText(b)))
    case UnsupportedExpr(name, args) => if args == [] then name else name + " " + InParens(ArgsText(args))
  }

  function InParens(s: string): string { "(" + " " + (s + " " + ")") }

  function ArgsText(args: seq<Node>): string
    requires forall i :: 0 <= i < |args| ==> Built(args[i])
  {
    if args == [] then ""
    else if |args| == 1 then FullText(args[0])
    else FullText(args[0]) + " " + "," + " " + ArgsText(args[1..])
  }

  // ---------- Derivations of written texts ----------

  /** c derives n at level k, and s is its text. */
  ghost predicate Spells(k: nat, c: Cst, n: Node, s: string)
  {
    Writes(k, c, n) && Join(Yield(c)) == s
  }

  lemma {:induction false} JoinTwo(a: seq<Token>, b: seq<Token>)
    requires a != [] && b != []
    ensures Join(a + b) == Join(a) + " " + Join(b)
  {
    if |a| == 1 {
      assert (a + b)[1..] == b;
    } else {
      JoinTwo(a[1..], b);
      assert (a + b)[1..] == a[1..] + b;
      assert (a[0].text + " " + Join(a[1..])) + " " + Join(b) == a[0].text + " " + (Join(a[1..]) + " " + Join(b));
    }
  }

  lemma JoinOne(t: Token)
    ensures Join([t]) == t.text
  {
  }

  lemma LowerLevel(j: nat, k: nat, c: Cst, n: Node, s: string)
    requires j <= k && Spells(k, c, n, s)
    ensures Spells(j, c, n, s)
  {
    hide AllLexemes, Join, Meaning;
    LayeredMono(j, k, c);
  }

  lemma GroupSpells(c: Cst, n: Node, s: string)
    requires Spells(0, c, n, s)
    ensures Spells(PRIMARY, Group(c), n, InParens(s))
  {
    hide AllLexemes, Join;
    PunctLexeme(LParen);
    Bracketed([Punct(LParen)], Yield(c), RParen);
    JoinTwo([Punct(LParen)], Yield(c) + [Punct(RParen)]);
    JoinTwo(Yield(c), [Punct(RParen)]);
    JoinOne(Punct(LParen));
    JoinOne(Punct(RParen));
  }

  lemma TokenText(op: Operator)
    requires op != Not
    ensures OperatorToken(op).0 == Strength(op) && Spelling(OperatorToken(op).1) == OperatorText(op)
  {
  }

  /** Two operands of the strengths an operator asks for, with the operator between them. */
  lemma InfixSpells(op: Operator, l: Cst, m: Node, s: string, r: Cst, n: Node, t: string) returns (c: Cst)
    requires op != Not && Spells(Strength(op), l, m, s) && Spells(Strength(op) + 1, r, n, t)
    ensures Spells(Strength(op), c, BinaryExpr(op, m, n), s + " " + OperatorText(op) + " " + t)
  {
    hide Writes, Join, OperatorToken, Spelling, OperatorText, Strength;
    var (level, kind) := OperatorToken(op);
    TokenText(op);
    c := Infix(level, l, kind, r);
    WritesInfix(op, l, m, r, n);
    JoinTwo(Yield(l), [Punct(kind)] + Yield(r));
    JoinTwo([Punct(kind)], Yield(r));
    JoinOne(Punct(kind));
    assert s + " " + (OperatorText(op) + " " + t) == s + " " + OperatorText(op) + " " + t;
  }

  lemma PrefixSpells(op: Operator, o: Cst, n: Node, s: string) returns (c: Cst)
    requires (op == Not || op == Sub) && Spells(UNARY, o, n, s)
    ensures Spells(UNARY, c, UnaryExpr(op, n), OperatorText(op) + " " + s)
  {
    hide Writes, Join;
    var kind := if op == Not then Bang else Minus;
    c := Prefix(kind, o);
    WritesPrefix(op, o, n);
    JoinTwo([Punct(kind)], Yield(o));
    JoinOne(Punct(kind));
  }

  /** A name with something in parentheses after it. */
  lemma HeadText(tok: Token, ts: seq<Token>, s: string)
    requires ts != [] && Join(ts) == s
    ensures Join([tok, Punct(LParen)] + (ts + [Punct(RParen)])) == tok.text + " " + InParens(s)
  {
    hide Join;
    var inside := ts + [Punct(RParen)];
    assert [tok, Punct(LParen)] + inside == [tok] + ([Punct(LParen)] + inside);
    JoinTwo([tok], [Punct(LParen)] + inside);
    JoinTwo([Punct(LParen)], inside);
    JoinTwo(ts, [Punct(RParen)]);
    JoinOne(tok);
    JoinOne(Punct(LParen));
    JoinOne(Punct(RParen));
  }

  lemma VarSpells(i: Cst, n: Node, s: string) returns (c: Cst)
    requires Spells(0, i, n, s)
    ensures Spells(PRIMARY, c, VarExpr(n), "var" + " " + InParens(s))
  {
    hide Writes, Join;
    c := VarCall(NameToken(KwVar), i);
    WritesVar(i, n);
    HeadText(NameToken(KwVar), Yield(i), s);
  }

  lemma CommaText(a: seq<Token>, b: seq<Token>, s: string, t: string)
    requires a != [] && b != [] && Join(a) == s && Join(b) == t
    ensures Join(a + ([Punct(Comma)] + b)) == s + " " + "," + " " + t
  {
    hide Join;
    JoinTwo(a, [Punct(Comma)] + b);
    JoinTwo([Punct(Comma)], b);
    JoinOne(Punct(Comma));
    assert s + " " + ("," + " " + t) == s + " " + "," + " " + t;
  }

  lemma CondSpells(x: Cst, l: Node, s: string, y: Cst, m: Node, t: string, z: Cst, n: Node, u: string) returns (c: Cst)
    requires Spells(0, x, l, s) && Spells(0, y, m, t) && Spells(0, z, n, u)
    ensures Spells(PRIMARY, c, CondExpr(l, m, n),
                   "cond" + " " + InParens(s + " " + "," + " " + (t + " " + "," + " " + u)))
  {
    hide Writes, Join, Yield;
    var tok := NameToken(KwCond);
    c := CondCall(tok, x, y, z);
    WritesCond(x, l, y, m, z, n);
    CondYieldIs(tok, x, y, z);
    CommaText(Yield(y), Yield(z), t, u);
    var inner := Yield(y) + ([Punct(Comma)] + Yield(z));
    CommaText(Yield(x), inner, s, t + " " + "," + " " + u);
    var all := Yield(x) + ([Punct(Comma)] + inner);
    HeadText(tok, all, s + " " + "," + " " + (t + " " + "," + " " + u));
    Regrouped(Yield(x), Yield(y), Yield(z), [Punct(Comma)], [Punct(RParen)]);
  }

  lemma Regrouped<T>(x: seq<T>, y: seq<T>, z: seq<T>, m: seq<T>, e: seq<T>)
    ensures (x + (m + (y + (m + z)))) + e == x + (m + (y + (m + (z + e))))
  {
  }

  // ---------- Whole trees ----------

  /** A derivation of the full text. */
  lemma {:induction false} FullSpells(n: Node) returns (c: Cst)
    requires Built(n) && Named(n)
    ensures Spells(0, c, n, FullText(n))
    decreases n, 1
  {
    hide Spells, Writes, OperatorText, Quote, PrintDecimal, InParens, Strength;
    match n
    case UnaryExpr(op, operand) =>
      var o := Operand(operand);
      LowerLevel(UNARY, PRIMARY, o, operand, InParens(FullText(operand)));
      c := PrefixSpells(op, o, operand, InParens(FullText(operand)));
      LowerLevel(0, UNARY, c, n, FullText(n));
    case BinaryExpr(op, l, r) =>
      var a := Operand(l);
      var b := Operand(r);
      c := Between(op, a, l, InParens(FullText(l)), b, r, InParens(FullText(r)));
    case VarExpr(i) =>
      var a := FullSpells(i);
      c := VarSpells(a, i, FullText(i));
      LowerLevel(0, PRIMARY, c, n, FullText(n));
    case CondExpr(x, y, z) =>
      var a := FullSpells(x);
      var b := FullSpells(y);
      var d := FullSpells(z);
      c := CondSpells(a, x, FullText(x), b, y, FullText(y), d, z, FullText(z));
      LowerLevel(0, PRIMARY, c, n, FullText(n));
    case UnsupportedExpr(name, args) =>
      c := CallSpells(n);
    case _ =>
      c := LeafSpells(n);
      LowerLevel(0, PRIMARY, c, n, FullText(n));
  }

  /** A tree in parentheses. */
  lemma {:induction false} Operand(n: Node) returns (c: Cst)
    requires Built(n) && Named(n)
    ensures Spells(PRIMARY, c, n, InParens(FullText(n)))
    decreases n, 2
  {
    hide Spells, FullText;
    var inner := FullSpells(n);
    GroupSpells(inner, n, FullText(n));
    c := Group(inner);
  }

  lemma Between(op: Operator, a: Cst, l: Node, s: string, b: Cst, r: Node, t: string) returns (c: Cst)
    requires op != Not && Spells(PRIMARY, a, l, s) && Spells(PRIMARY, b, r, t)
    ensures Spells(0, c, BinaryExpr(op, l, r), s + " " + OperatorText(op) + " " + t)
  {
    hide Spells, OperatorText;
    LowerLevel(Strength(op), PRIMARY, a, l, s);
    LowerLevel(Strength(op) + 1, PRIMARY, b, r, t);
    c := InfixSpells(op, a, l, s, b, r, t);
    LowerLevel(0, Strength(op), c, BinaryExpr(op, l, r), s + " " + OperatorText(op) + " " + t);
  }

  lemma LeafSpells(n: Node) returns (c: Cst)
    requires Built(n) && Named(n)
    requires n.IntLiteral? || n.StringLiteral? || n.RandomExpr? || n.CommandExpr? || n.StateTypeExpr? || n.PosExpr?
    ensures Spells(PRIMARY, c, n, FullText(n))
  {
    hide Writes, Quote, PrintDecimal, IsIdentText;
    c := DeriveBare(n);
    if n.PosExpr? {
      WritesAxis(n.axis);
      assert Yield(c) == [NameToken(KwPos)] + [Token(Ident, n.axis)];
      JoinTwo([NameToken(KwPos)], [Token(Ident, n.axis)]);
    } else {
      WritesLeaf(n);
    }
  }

  lemma {:induction false} CallSpells(n: Node) returns (c: Cst)
    requires Built(n) && Named(n) && n.UnsupportedExpr?
    ensures Spells(0, c, n, FullText(n))
    decreases n, 0
  {
    hide Writes, IsIdentText, KeywordOf, Join, IsLexeme, ArgsText, Yield, Layered, Meaning, InParens;
    var tok := Token(Ident, n.name);
    NameTextToken(n.name);
    if n.args == [] {
      c := Atom(tok);
      WritesName(tok);
      JoinOne(tok);
      AtomYield(tok);
    } else {
      var cs := ArgsSpell(n.args);
      c := Call(tok, cs);
      WritesCall(tok, cs);
      CallYield(tok, cs);
      HeadText(tok, YieldArgs(cs), ArgsText(n.args));
    }
    LowerLevel(0, PRIMARY, c, n, FullText(n));
  }

  lemma AtomYield(tok: Token)
    ensures Yield(Atom(tok)) == [tok]
  {
  }

  lemma CallYield(tok: Token, cs: seq<Cst>)
    ensures Yield(Call(tok, cs)) == [tok, Punct(LParen)] + (YieldArgs(cs) + [Punct(RParen)])
  {
  }

  lemma {:induction false} ArgsSpell(args: seq<Node>) returns (cs: seq<Cst>)
    requires args != [] && forall i :: 0 <= i < |args| ==> Built(args[i]) && Named(args[i])
    ensures |cs| == |args| && (forall i :: 0 <= i < |cs| ==> Layered(0, cs[i])) && Meanings(cs) == args
    ensures AllLexemes(YieldArgs(cs)) && YieldArgs(cs) != [] && Join(YieldArgs(cs)) == ArgsText(args)
    decreases args
  {
    hide AllLexemes, Join, FullText, Built, Named;
    var first := FullSpells(args[0]);
    if |args| == 1 {
      cs := [first];
      assert cs[1..] == [] && args == [args[0]];
    } else {
      var rest := ArgsSpell(args[1..]);
      cs := [first] + rest;
      assert cs[1..] == rest && args == [args[0]] + args[1..];
      AfterComma(Yield(first), YieldArgs(rest));
      CommaText(Yield(first), YieldArgs(rest), FullText(args[0]), ArgsText(args[1..]));
    }
  }

  lemma SpelledParses(c: Cst, n: Node, s: string)
    requires Spells(0, c, n, s)
    ensures ParseSource(s) == Ok(n)
  {
    LexJoin(Yield(c));
    ParseDecidesGrammar(s, n);
  }

  /** Every operator, keyword, call and literal is read as written. */
  lemma FullTextParses(n: Node)
    requires Built(n) && Named(n)
    ensures ParseSource(FullText(n)) == Ok(n)
  {
    hide Spells;
    var c := FullSpells(n);
    SpelledParses(c, n, FullText(n));
  }

  /**
   Two operators without parentheses between them: the second takes the middle operand
   exactly when it binds more tightly than the first.
   */
  lemma PrecedenceText(p: Operator, q: Operator, l: Node, m: Node, r: Node)
    requires p != Not && q != Not && Built(l) && Named(l) && Built(m) && Named(m) && Built(r) && Named(r)
    ensures ParseSource((InParens(FullText(l)) + " " + OperatorText(p) + " " + InParens(FullText(m)))
                        + " " + OperatorText(q) + " " + InParens(FullText(r)))
         == Ok(if Strength(q) > Strength(p) then BinaryExpr(p, l, BinaryExpr(q, m, r)) else BinaryExpr(q, BinaryExpr(p, l, m), r))
  {
    hide Spells, OperatorText, FullText, InParens, Built, Named, ParseSource;
    var a := Operand(l);
    var b := Operand(m);
    var d := Operand(r);
    var s, t, u := InParens(FullText(l)), InParens(FullText(m)), InParens(FullText(r));
    if Strength(q) > Strength(p) {
      var x := Tighter(p, q, a, l, s, b, m, t, d, r, u);
      SpelledParses(x, BinaryExpr(p, l, BinaryExpr(q, m, r)), (s + " " + OperatorText(p) + " " + t) + " " + OperatorText(q) + " " + u);
    } else {
      var x := Looser(p, q, a, l, s, b, m, t, d, r, u);
      SpelledParses(x, BinaryExpr(q, BinaryExpr(p, l, m), r), (s + " " + OperatorText(p) + " " + t) + " " + OperatorText(q) + " " + u);
    }
  }

  lemma Tighter(p: Operator, q: Operator, a: Cst, l: Node, s: string, b: Cst, m: Node, t: string, d: Cst, r: Node, u: string)
    returns (x: Cst)
    requires p != Not && q != Not && Strength(q) > Strength(p)
    requires Spells(PRIMARY, a, l, s) && Spells(PRIMARY, b, m, t) && Spells(PRIMARY, d, r, u)
    ensures Spells(0, x, BinaryExpr(p, l, BinaryExpr(q, m, r)), (s + " " + OperatorText(p) + " " + t) + " " + OperatorText(q) + " " + u)
  {
    hide Spells, OperatorText;
    LowerLevel(Strength(q), PRIMARY, b, m, t);
    LowerLevel(Strength(q) + 1, PRIMARY, d, r, u);
    var inner := InfixSpells(q, b, m, t, d, r, u);
    var v := t + " " + OperatorText(q) + " " + u;
    LowerLevel(Strength(p) + 1, Strength(q), inner, BinaryExpr(q, m, r), v);
    LowerLevel(Strength(p), PRIMARY, a, l, s);
    x := InfixSpells(p, a, l, s, inner, BinaryExpr(q, m, r), v);
    LowerLevel(0, Strength(p), x, BinaryExpr(p, l, BinaryExpr(q, m, r)), s + " " + OperatorText(p) + " " + v);
    assert s + " " + OperatorText(p) + " " + v == (s + " " + OperatorText(p) + " " + t) + " " + OperatorText(q) + " " + u;
  }

  lemma Looser(p: Operator, q: Operator, a: Cst, l: Node, s: string, b: Cst, m: Node, t: string, d: Cst, r: Node, u: string)
    returns (x: Cst)
    requires p != Not && q != Not && Strength(q) <= Strength(p)
    requires Spells(PRIMARY, a, l, s) && Spells(PRIMARY, b, m, t) && Spells(PRIMARY, d, r, u)
    ensures Spells(0, x, BinaryExpr(q, BinaryExpr(p, l, m), r), (s + " " + OperatorText(p) + " " + t) + " " + OperatorText(q) + " " + u)
  {
    hide Spells, OperatorText;
    LowerLevel(Strength(p), PRIMARY, a, l, s);
    LowerLevel(Strength(p) + 1, PRIMARY, b, m, t);
    var inner := InfixSpells(p, a, l, s, b, m, t);
    var v := s + " " + OperatorText(p) + " " + t;
    LowerLevel(Strength(q), Strength(p), inner, BinaryExpr(p, l, m), v);
    LowerLevel(Strength(q) + 1, PRIMARY, d, r, u);
    x := InfixSpells(q, inner, BinaryExpr(p, l, m), v, d, r, u);
    LowerLevel(0, Strength(q), x, BinaryExpr(q, BinaryExpr(p, l, m), r), v + " " + OperatorText(q) + " " + u);
  }

  /** A prefix operator binds more tightly than any binary one. */
  lemma PrefixText(o: Operator, p: Operator, l: Node, r: Node)
    requires (o == Not || o == Sub) && p != Not && Built(l) && Named(l) && Built(r) && Named(r)
    ensures ParseSource((OperatorText(o) + " " + InParens(FullText(l))) + " " + OperatorText(p) + " " + InParens(FullText(r)))
         == Ok(BinaryExpr(p, UnaryExpr(o, l), r))
  {
    hide Spells, OperatorText, FullText, InParens, Built, Named, ParseSource;
    var a := Operand(l);
    var b := Operand(r);
    var s, t := InParens(FullText(l)), InParens(FullText(r));
    LowerLevel(UNARY, PRIMARY, a, l, s);
    var c := PrefixSpells(o, a, l, s);
    LowerLevel(Strength(p), UNARY, c, UnaryExpr(o, l), OperatorText(o) + " " + s);
    LowerLevel(Strength(p) + 1, PRIMARY, b, r, t);
    var x := InfixSpells(p, c, UnaryExpr(o, l), OperatorText(o) + " " + s, b, r, t);
    var all := (OperatorText(o) + " " + s) + " " + OperatorText(p) + " " + t;
    LowerLevel(0, Strength(p), x, BinaryExpr(p, UnaryExpr(o, l), r), all);
    SpelledParses(x, BinaryExpr(p, UnaryExpr(o, l), r), all);
  }
}
