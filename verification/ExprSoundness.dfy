/**
 What the parser reads without an error, the grammar derives; with completeness
 this makes `Parse` decide the grammar and return the one tree it gives.
 */
module ExprSoundness {
  import opened Wrappers
  import opened ExprSyntax
  import opened ExprLexer
  import opened ExprParser
  import opened ExprGrammar

  /** o read exactly c off the front of ts, without an error. */
  ghost predicate Reads(o: Outcome, c: Cst, ts: seq<Token>)
  {
    o.node == Some(Meaning(c)) && ts == Yield(c) + o.rest
  }

  /** Dropping tokens keeps a list of lexemes one, and a punctuation token is its spelling. */
  lemma LexemeTail(ts: seq<Token>)
    requires AllLexemes(ts) && ts != []
    ensures AllLexemes(ts[1..]) && ts == [ts[0]] + ts[1..] && IsLexeme(ts[0])
    ensures Spelling(ts[0].kind) != "" ==> ts[0] == Punct(ts[0].kind)
  {
  }

  lemma LexemeRest(y: seq<Token>, r: seq<Token>)
    requires AllLexemes(y + r)
    ensures AllLexemes(y) && AllLexemes(r)
  {
    forall t | t in r ensures IsLexeme(t) {
      assert t in y + r;
    }
    forall t | t in y ensures IsLexeme(t) {
      assert t in y + r;
    }
  }

  lemma NoTokenLeft(ts: seq<Token>)
    requires AllLexemes(ts) && Head(ts) == EOF
    ensures ts == []
  {
    if ts != [] {
      LexemeTail(ts);
    }
  }

  lemma Regroup(a: seq<Token>, x: seq<Token>, b: seq<Token>, r: seq<Token>)
    ensures a + (x + (b + r)) == (a + (x + b)) + r
  {
  }

  lemma {:induction false} SoundLevel(k: nat, ts: seq<Token>) returns (c: Cst)
    requires k <= PRIMARY && AllLexemes(ts) && ParseLevel(k, ts).errs == []
    ensures Layered(k, c) && Reads(ParseLevel(k, ts), c, ts)
    decreases |ts|, PRIMARY - k, 2
  {
    hide AllLexemes, BinaryOp, ParsePrimary, ParseUnary, ParseTail;
    if k == PRIMARY {
      c := SoundPrimary(ts);
    } else if k == UNARY {
      c := SoundUnary(ts);
    } else {
      var left := SoundLevel(k + 1, ts);
      LayeredMono(k, k + 1, left);
      var rest := ParseLevel(k + 1, ts).rest;
      LexemeRest(Yield(left), rest);
      c := SoundTail(k, left, rest);
    }
  }

  lemma OperatorSpelled(k: nat, kind: TokenKind)
    requires BinaryOp(k, kind).Some?
    ensures Spelling(kind) != "" && kind != EOF
  {
  }

  lemma {:induction false} SoundTail(k: nat, left: Cst, ts: seq<Token>) returns (c: Cst)
    requires k < UNARY && AllLexemes(ts) && Layered(k, left) && ParseTail(k, Meaning(left), ts).errs == []
    ensures Layered(k, c) && Reads(ParseTail(k, Meaning(left), ts), c, Yield(left) + ts)
    decreases |ts|, 0, 0
  {
    hide AllLexemes, BinaryOp, ParsePrimary, ParseUnary, ParseLevel, Yield, Layered, Meaning;
    if BinaryOp(k, Head(ts)).None? {
      c := left;
    } else {
      OperatorSpelled(k, Head(ts));
      LexemeTail(ts);
      var right := SoundLevel(k + 1, ts[1..]);
      var rest := ParseLevel(k + 1, ts[1..]).rest;
      LexemeRest(Yield(right), rest);
      InfixYield(k, left, Head(ts), right, rest);
      InfixTree(k, left, Head(ts), right);
      c := SoundTail(k, Infix(k, left, Head(ts), right), rest);
    }
  }

  lemma InfixTree(k: nat, left: Cst, kind: TokenKind, right: Cst)
    requires k < UNARY && BinaryOp(k, kind).Some? && Layered(k, left) && Layered(k + 1, right)
    ensures Layered(k, Infix(k, left, kind, right))
    ensures Meaning(Infix(k, left, kind, right)) == BinaryExpr(BinaryOp(k, kind).value, Meaning(left), Meaning(right))
  {
    hide BinaryOp;
  }

  lemma InfixYield(k: nat, left: Cst, kind: TokenKind, right: Cst, r: seq<Token>)
    ensures Yield(Infix(k, left, kind, right)) + r == Yield(left) + ([Punct(kind)] + (Yield(right) + r))
  {
  }

  lemma {:induction false} SoundUnary(ts: seq<Token>) returns (c: Cst)
    requires AllLexemes(ts) && ParseUnary(ts).errs == []
    ensures Layered(UNARY, c) && Reads(ParseUnary(ts), c, ts)
    decreases |ts|, PRIMARY - UNARY, 0
  {
    hide AllLexemes, ParsePrimary, ParseLevel, AtomMeaning;
    if PrefixOp(Head(ts)).None? {
      c := SoundPrimary(ts);
      LayeredMono(UNARY, PRIMARY, c);
    } else {
      LexemeTail(ts);
      var operand := SoundUnary(ts[1..]);
      c := Prefix(Head(ts), operand);
      assert ts == Yield(c) + ParseUnary(ts).rest;
    }
  }

  lemma {:induction false} SoundPrimary(ts: seq<Token>) returns (c: Cst)
    requires AllLexemes(ts) && ParsePrimary(ts).errs == []
    ensures Layered(PRIMARY, c) && Reads(ParsePrimary(ts), c, ts)
    decreases |ts|, 0, 1
  {
    LexemeTail(ts);
    if Head(ts) == LParen {
      c := SoundGroup(ts);
    } else if Head(ts) == Ident {
      c := SoundNamed(ts);
    } else {
      c := Atom(ts[0]);
    }
  }

  lemma {:induction false} SoundGroup(ts: seq<Token>) returns (c: Cst)
    requires AllLexemes(ts) && Head(ts) == LParen && ParsePrimary(ts).errs == []
    ensures Layered(PRIMARY, c) && Reads(ParsePrimary(ts), c, ts)
    decreases |ts|, 0, 0
  {
    LexemeTail(ts);
    var inner := SoundEnclosed(ts[1..], RParen);
    c := Group(inner);
    Regroup([Punct(LParen)], Yield(inner), [Punct(RParen)], ParsePrimary(ts).rest);
  }

  /** An expression followed by the token `close`. */
  lemma {:induction false} SoundEnclosed(ts: seq<Token>, close: TokenKind) returns (c: Cst)
    requires AllLexemes(ts) && ParseLevel(0, ts).errs == [] && Head(ParseLevel(0, ts).rest) == close
    requires close == RParen || close == Comma
    ensures var o := ParseLevel(0, ts);
      && Layered(0, c) && Reads(o, c, ts) && AllLexemes(o.rest[1..])
      && o.rest == [Punct(close)] + o.rest[1..]
    decreases |ts|, PRIMARY + 1
  {
    c := SoundLevel(0, ts);
    var o := ParseLevel(0, ts);
    LexemeRest(Yield(c), o.rest);
    LexemeTail(o.rest);
  }

  lemma {:induction false} SoundNamed(ts: seq<Token>) returns (c: Cst)
    requires AllLexemes(ts) && Head(ts) == Ident && ParsePrimary(ts).errs == []
    ensures Layered(PRIMARY, c) && Reads(ParsePrimary(ts), c, ts)
    decreases |ts|, 0, 0
  {
    hide AllLexemes, ParseLevel, ParseCall, ParseVar, ParseRandom, ParseCond;
    LexemeTail(ts);
    var tok, rest := ts[0], ts[1..];
    assert ParsePrimary(ts) == ParseNamed(Name(tok), rest);
    if rest != [] {
      LexemeTail(rest);
    }
    match KeywordOf(Name(tok)) {
      case KwVar => c := SoundVar(tok, rest);
      case KwRandom => c := SoundRandom(tok, rest);
      case KwCommand => c := Atom(tok);
      case KwPos =>
        c := Axis(tok, rest[0]);
        assert ts == Yield(c) + rest[1..];
      case KwStateType => c := Atom(tok);
      case KwCond => c := SoundCond(tok, rest);
      case NotKeyword => c := SoundCall(tok, rest);
    }
  }

  lemma {:induction false} SoundVar(tok: Token, ts: seq<Token>) returns (c: Cst)
    requires IsName(tok, KwVar) && AllLexemes(ts) && ParseVar(ts).errs == []
    ensures Layered(PRIMARY, c) && Reads(ParseVar(ts), c, [tok] + ts)
    decreases |ts|
  {
    hide AllLexemes, ParseLevel, Yield;
    hide Layered, Meaning, IsName;
    LexemeTail(ts);
    var arg := SoundEnclosed(ts[1..], RParen);
    c := VarCall(tok, arg);
    VarYield(tok, arg, ParseVar(ts).rest);
  }

  lemma VarYield(tok: Token, arg: Cst, r: seq<Token>)
    requires IsName(tok, KwVar) && Layered(0, arg)
    ensures Layered(PRIMARY, VarCall(tok, arg)) && Meaning(VarCall(tok, arg)) == VarExpr(Meaning(arg))
    ensures Yield(VarCall(tok, arg)) + r == [tok] + ([Punct(LParen)] + (Yield(arg) + ([Punct(RParen)] + r)))
  {
    hide IsName;
  }

  lemma SoundRandom(tok: Token, ts: seq<Token>) returns (c: Cst)
    requires IsName(tok, KwRandom) && AllLexemes(ts) && ParseRandom(ts).errs == []
    ensures Layered(PRIMARY, c) && Reads(ParseRandom(ts), c, [tok] + ts)
  {
    hide AllLexemes, KeywordOf, ParseLevel;
    if Head(ts) == LParen {
      LexemeTail(ts);
      LexemeTail(ts[1..]);
      c := RandomCall(tok);
      RandomYield(tok, ts[1..][1..]);
    } else {
      c := Atom(tok);
    }
  }

  lemma RandomYield(tok: Token, r: seq<Token>)
    ensures Yield(RandomCall(tok)) + r == [tok] + ([Punct(LParen)] + ([Punct(RParen)] + r))
  {
  }

  lemma {:induction false} SoundCond(tok: Token, ts: seq<Token>) returns (c: Cst)
    requires IsName(tok, KwCond) && AllLexemes(ts) && ParseCond(ts).errs == []
    ensures Layered(PRIMARY, c) && Reads(ParseCond(ts), c, [tok] + ts)
    decreases |ts|
  {
    hide AllLexemes, ParseLevel, ParseBranches, IsName, Layered, Meaning, Yield;
    LexemeTail(ts);
    var cc := SoundEnclosed(ts[1..], Comma);
    var o := ParseLevel(0, ts[1..]);
    var mid := o.rest[1..];
    var a, b := SoundBranches(Meaning(cc), mid);
    c := CondCall(tok, cc, a, b);
    var r := ParseBranches(Meaning(cc), mid);
    assert ParseCond(ts) == Before([], r);
    CondYield(tok, cc, a, b, r.rest);
    CondTree(tok, cc, a, b);
    assert ts == [Punct(LParen)] + (Yield(cc) + ([Punct(Comma)] + mid));
  }

  lemma CondTree(tok: Token, c: Cst, a: Cst, b: Cst)
    requires IsName(tok, KwCond) && Layered(0, c) && Layered(0, a) && Layered(0, b)
    ensures Layered(PRIMARY, CondCall(tok, c, a, b))
    ensures Meaning(CondCall(tok, c, a, b)) == CondExpr(Meaning(c), Meaning(a), Meaning(b))
  {
    hide IsName;
  }

  lemma CondYield(tok: Token, c: Cst, a: Cst, b: Cst, r: seq<Token>)
    ensures Yield(CondCall(tok, c, a, b)) + r ==
      [tok] + ([Punct(LParen)] + (Yield(c) + ([Punct(Comma)] +
        (Yield(a) + ([Punct(Comma)] + (Yield(b) + ([Punct(RParen)] + r)))))))
  {
    hide Punct;
  }

  lemma {:induction false} SoundBranches(n: Node, ts: seq<Token>) returns (a: Cst, b: Cst)
    requires AllLexemes(ts) && ParseBranches(n, ts).errs == []
    ensures Layered(0, a) && Layered(0, b)
    ensures ParseBranches(n, ts).node == Some(CondExpr(n, Meaning(a), Meaning(b)))
    ensures ts == Yield(a) + ([Punct(Comma)] + (Yield(b) + ([Punct(RParen)] + ParseBranches(n, ts).rest)))
    decreases |ts|, PRIMARY + 2
  {
    hide ParseLevel, Yield, Layered, Meaning;
    a := SoundEnclosed(ts, Comma);
    var rest := ParseLevel(0, ts).rest[1..];
    b := SoundEnclosed(rest, RParen);
  }

  lemma {:induction false} SoundCall(tok: Token, ts: seq<Token>) returns (c: Cst)
    requires IsName(tok, NotKeyword) && AllLexemes(ts) && ParseCall(Name(tok), ts).errs == []
    ensures Layered(PRIMARY, c) && Reads(ParseCall(Name(tok), ts), c, [tok] + ts)
    decreases |ts|, 1
  {
    hide AllLexemes, ParseLevel, ParseArgs, Layered, Meaning, Yield, YieldArgs, IsName;
    if Head(ts) != LParen {
      c := BareName(tok);
    } else {
      LexemeTail(ts);
      assert [tok] + ts == [tok, Punct(LParen)] + ts[1..];
      if Head(ts[1..]) == RParen {
        NoArgs(ts[1..]);
        CallTree(tok, []);
        c := CallYield(tok, [], ts[1..]);
      } else {
        c := SoundCallArgs(tok, ts);
      }
    }
  }

  lemma BareName(tok: Token) returns (c: Cst)
    requires IsName(tok, NotKeyword)
    ensures Layered(PRIMARY, c) && Meaning(c) == UnsupportedExpr(Name(tok), []) && Yield(c) == [tok]
  {
    c := Atom(tok);
  }

  lemma {:induction false} SoundCallArgs(tok: Token, ts: seq<Token>) returns (c: Cst)
    requires IsName(tok, NotKeyword) && AllLexemes(ts) && ParseCall(Name(tok), ts).errs == []
    requires Head(ts) == LParen && Head(ts[1..]) != RParen && AllLexemes(ts[1..])
    ensures Layered(PRIMARY, c) && c.Call?
    ensures var o := ParseCall(Name(tok), ts);
      o.node == Some(Meaning(c)) && [tok, Punct(LParen)] + ts[1..] == Yield(c) + o.rest
    decreases |ts|, 0
  {
    hide AllLexemes, ParseLevel, IsName, ParseArgs, YieldArgs, Yield, Layered, Meaning;
    var a := ParseArgs(ts[1..]);
    assert Head(a.rest) == RParen;
    var args := SoundArgs(ts[1..]);
    c := CallYield(tok, args, a.rest);
    CallTree(tok, args);
  }

  lemma CallTree(tok: Token, args: seq<Cst>)
    requires IsName(tok, NotKeyword) && forall i :: 0 <= i < |args| ==> Layered(0, args[i])
    ensures Layered(PRIMARY, Call(tok, args)) && Meaning(Call(tok, args)) == UnsupportedExpr(Name(tok), Meanings(args))
  {
    hide IsName;
  }

  lemma CallYield(tok: Token, args: seq<Cst>, close: seq<Token>) returns (c: Cst)
    requires AllLexemes(YieldArgs(args) + close) && Head(close) == RParen
    ensures c == Call(tok, args)
    ensures [tok, Punct(LParen)] + (YieldArgs(args) + close) == Yield(c) + close[1..]
  {
    c := Call(tok, args);
    LexemeRest(YieldArgs(args), close);
    LexemeTail(close);
    Regroup([tok, Punct(LParen)], YieldArgs(args), [Punct(RParen)], close[1..]);
  }

  lemma {:induction false} SoundArgs(ts: seq<Token>) returns (args: seq<Cst>)
    requires AllLexemes(ts) && ParseArgs(ts).errs == []
    ensures args != [] && forall i :: 0 <= i < |args| ==> Layered(0, args[i])
    ensures ParseArgs(ts).nodes == Meanings(args) && ts == YieldArgs(args) + ParseArgs(ts).rest
    decreases |ts|, PRIMARY + 2
  {
    hide AllLexemes, ParseLevel;
    var first := SoundLevel(0, ts);
    var o := ParseLevel(0, ts);
    LexemeRest(Yield(first), o.rest);
    if Head(o.rest) != Comma {
      args := [first];
      assert Given(o) + [] == Given(o);
      assert Meanings(args) == [Meaning(first)] + Meanings(args[1..]);
    } else {
      LexemeTail(o.rest);
      var more := SoundArgs(o.rest[1..]);
      args := [first] + more;
      assert args[1..] == more;
      Regroup(Yield(first), [Punct(Comma)], YieldArgs(more), ParseArgs(ts).rest);
    }
  }

  /** `source` lexes cleanly and its tokens are what the expression nonterminal derives as n. */
  ghost predicate Derives(source: string, n: Node)
  {
    && Lex(source).errs == []
    && exists c :: Layered(0, c) && Yield(c) == Lex(source).toks && Meaning(c) == n
  }

  /** `Parse` returns a tree exactly for the sources the grammar derives, and then it is the derived tree. */
  lemma ParseDecidesGrammar(source: string, n: Node)
    ensures ParseSource(source) == Ok(n) <==> Derives(source, n)
  {
    var ts := Lex(source).toks;
    LexProducesLexemes(source);
    if ParseSource(source) == Ok(n) {
      var c := SoundLevel(0, ts);
      var rest := ParseLevel(0, ts).rest;
      LexemeRest(Yield(c), rest);
      NoTokenLeft(rest);
      assert ts == Yield(c);
    }
    if Derives(source, n) {
      var c :| Layered(0, c) && Yield(c) == ts && Meaning(c) == n;
      Complete(0, c, []);
      assert Yield(c) + [] == ts;
    }
  }

  /** The grammar gives a source at most one tree. */
  lemma GrammarUnambiguous(source: string, m: Node, n: Node)
    requires Derives(source, m) && Derives(source, n)
    ensures m == n
  {
    ParseDecidesGrammar(source, m);
    ParseDecidesGrammar(source, n);
  }
}
