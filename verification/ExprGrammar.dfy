/**
 The layered grammar of expressions, written as derivation trees: `Layered(k, c)`
 holds of the trees a nonterminal of level k derives, `Yield(c)` is the token list
 derived and `Meaning(c)` the expression it stands for.  The parser is proved
 sound and complete for it, so a token list has at most one meaning.
 */
module ExprGrammar {
  import opened Wrappers
  import opened ExprSyntax
  import opened LetterCase
  import opened StringLiterals
  import opened ExprParser

  datatype Cst =
    | Atom(tok: Token)                                           // literal, keyword or bare name
    | RandomCall(tok: Token)                                     // random ( )
    | Axis(tok: Token, axis: Token)                              // pos y
    | Group(inner: Cst)                                          // ( e )
    | Prefix(kind: TokenKind, operand: Cst)                      // ! e, - e
    | Infix(level: nat, left: Cst, kind: TokenKind, right: Cst)  // e + e
    | VarCall(tok: Token, arg: Cst)                              // var ( e )
    | CondCall(tok: Token, c: Cst, a: Cst, b: Cst)               // cond ( e , e , e )
    | Call(tok: Token, args: seq<Cst>)                           // f ( e , ... )

  function Yield(c: Cst): (ts: seq<Token>)
    ensures |ts| > 0
  {
    match c
    case Atom(tok) => [tok]
    case RandomCall(tok) => [tok, Punct(LParen), Punct(RParen)]
    case Axis(tok, axis) => [tok, axis]
    case Group(inner) => [Punct(LParen)] + (Yield(inner) + [Punct(RParen)])
    case Prefix(kind, operand) => [Punct(kind)] + Yield(operand)
    case Infix(_, left, kind, right) => Yield(left) + ([Punct(kind)] + Yield(right))
    case VarCall(tok, arg) => [tok, Punct(LParen)] + (Yield(arg) + [Punct(RParen)])
    case CondCall(tok, c, a, b) =>
      [tok, Punct(LParen)] + (Yield(c) + ([Punct(Comma)] + (Yield(a) + ([Punct(Comma)] + (Yield(b) + [Punct(RParen)])))))
    case Call(tok, args) => [tok, Punct(LParen)] + (YieldArgs(args) + [Punct(RParen)])
  }

  function YieldArgs(args: seq<Cst>): seq<Token>
  {
    if args == [] then []
    else if |args| == 1 then Yield(args[0])
    else Yield(args[0]) + ([Punct(Comma)] + YieldArgs(args[1..]))
  }

  function Name(tok: Token): string { ToLower(tok.text) }

  ghost predicate IsName(tok: Token, k: Keyword)
  {
    tok.kind == Ident && KeywordOf(Name(tok)) == k
  }

  /** c is derived by the nonterminal of level k. */
  ghost predicate Layered(k: nat, c: Cst)
    decreases c
  {
    match c
    case Atom(tok) =>
      match tok.kind {
        case Int => true
        case Str => Unquote(tok.text).Some?
        case Ident => KeywordOf(Name(tok)) in {KwRandom, KwCommand, KwStateType, NotKeyword}
        case _ => false
      }
    case RandomCall(tok) => IsName(tok, KwRandom)
    case Axis(tok, axis) => IsName(tok, KwPos) && axis.kind == Ident
    case Group(inner) => Layered(0, inner)
    case Prefix(kind, operand) => k <= UNARY && PrefixOp(kind).Some? && Layered(UNARY, operand)
    case Infix(level, left, kind, right) =>
      k <= level < UNARY && BinaryOp(level, kind).Some? && Layered(level, left) && Layered(level + 1, right)
    case VarCall(tok, arg) => IsName(tok, KwVar) && Layered(0, arg)
    case CondCall(tok, c, a, b) => IsName(tok, KwCond) && Layered(0, c) && Layered(0, a) && Layered(0, b)
    case Call(tok, args) => IsName(tok, NotKeyword) && forall i :: 0 <= i < |args| ==> Layered(0, args[i])
  }

  function AtomMeaning(tok: Token): Node
  {
    match tok.kind
    case Int => IntLiteral(ParseInt(tok.text))
    case Str => StringLiteral(match Unquote(tok.text) case Some(v) => v case None => "")
    case _ =>
      match KeywordOf(Name(tok))
      case KwRandom => RandomExpr
      case KwCommand => CommandExpr
      case KwStateType => StateTypeExpr
      case _ => UnsupportedExpr(Name(tok), [])
  }

  function OpOf(o: Option<Operator>): Operator { match o case Some(op) => op case None => Not }

  /** The expression a derivation stands for: parentheses disappear, everything else stays. */
  function Meaning(c: Cst): Node
  {
    match c
    case Atom(tok) => AtomMeaning(tok)
    case RandomCall(_) => RandomExpr
    case Axis(_, axis) => PosExpr(Name(axis))
    case Group(inner) => Meaning(inner)
    case Prefix(kind, operand) => UnaryExpr(OpOf(PrefixOp(kind)), Meaning(operand))
    case Infix(level, left, kind, right) => BinaryExpr(OpOf(BinaryOp(level, kind)), Meaning(left), Meaning(right))
    case VarCall(_, arg) => VarExpr(Meaning(arg))
    case CondCall(_, c, a, b) => CondExpr(Meaning(c), Meaning(a), Meaning(b))
    case Call(tok, args) => UnsupportedExpr(Name(tok), Meanings(args))
  }

  function Meanings(args: seq<Cst>): (ns: seq<Node>)
    ensures |ns| == |args|
  {
    if args == [] then [] else [Meaning(args[0])] + Meanings(args[1..])
  }

  lemma {:induction false} MeaningsAt(args: seq<Cst>)
    ensures forall i :: 0 <= i < |args| ==> Meanings(args)[i] == Meaning(args[i])
    decreases args
  {
    if args != [] {
      MeaningsAt(args[1..]);
    }
  }

  lemma {:induction false} LayeredMono(j: nat, k: nat, c: Cst)
    requires j <= k && Layered(k, c)
    ensures Layered(j, c)
  {
  }

  // ---------- Completeness: what the grammar derives, the parser reads ----------

  /** What may follow an expression of level k without becoming part of it. */
  predicate Follow(k: nat, r: seq<Token>)
  {
    Head(r) != LParen && forall j :: k < j < UNARY ==> BinaryOp(j, Head(r)).None?
  }

  predicate IsPrimary(c: Cst) { !c.Prefix? && !c.Infix? }

  lemma {:induction false} Complete(k: nat, c: Cst, r: seq<Token>)
    requires k <= PRIMARY && Layered(k, c) && Follow(k, r)
    ensures ParseLevel(k, Yield(c) + r) == ParseTail(k, Meaning(c), r)
    decreases c, 2 + PRIMARY - k
  {
    hide ParsePrimary, ParseUnary, ParseTail, Yield, Meaning, Layered, BinaryOp;
    if k >= UNARY {
      NoTail(k, Meaning(c), r);
      if k == UNARY {
        CompleteUnary(c, r);
      } else {
        IsPrimaryTree(c);
        CompletePrimary(c, r);
      }
    } else if c.Infix? && c.level == k {
      CompleteInfix(k, c, r);
    } else {
      LayeredUp(k, c);
      Complete(k + 1, c, r);
      Stops(k, Meaning(c), r);
      var o := ParseTail(k, Meaning(c), r);
      assert [] + o.errs == o.errs;
    }
  }

  lemma NoTail(k: nat, n: Node, r: seq<Token>)
    requires k >= UNARY
    ensures ParseTail(k, n, r) == Found(n, r)
  {
  }

  lemma IsPrimaryTree(c: Cst)
    requires Layered(PRIMARY, c)
    ensures IsPrimary(c)
  {
  }

  lemma LayeredUp(k: nat, c: Cst)
    requires k < UNARY && Layered(k, c) && !(c.Infix? && c.level == k)
    ensures Layered(k + 1, c)
  {
  }

  lemma Stops(k: nat, n: Node, r: seq<Token>)
    requires Follow(k, r)
    ensures ParseTail(k + 1, n, r) == Found(n, r)
  {
    hide ParseLevel;
  }

  /** A name at the head: the rest is read by the name. */
  lemma PrimaryNamed(tok: Token, rest: seq<Token>)
    requires tok.kind == Ident
    ensures ParsePrimary([tok] + rest) == ParseNamed(Name(tok), rest)
    ensures PrefixOp(Head([tok] + rest)).None?
  {
    hide ParseNamed, ParseLevel;
    assert ([tok] + rest)[1..] == rest;
  }

  lemma {:induction false} CompleteInfix(k: nat, c: Cst, r: seq<Token>)
    requires k < UNARY && c.Infix? && c.level == k && Layered(k, c) && Follow(k, r)
    ensures ParseLevel(k, Yield(c) + r) == ParseTail(k, Meaning(c), r)
    decreases c, 0
  {
    hide ParsePrimary, ParseUnary, AtomMeaning, Follow, BinaryOp;
    var tail := [Punct(c.kind)] + (Yield(c.right) + r);
    assert Yield(c) + r == Yield(c.left) + tail;
    assert tail[1..] == Yield(c.right) + r;
    OperatorFollows(k, c.kind, Yield(c.right) + r);
    FollowUp(k, r);
    Complete(k, c.left, tail);
    Complete(k + 1, c.right, r);
    Stops(k, Meaning(c.right), r);
    assert [] + ParseTail(k, Meaning(c), r).errs == ParseTail(k, Meaning(c), r).errs;
  }

  lemma OperatorFollows(k: nat, kind: TokenKind, r: seq<Token>)
    requires BinaryOp(k, kind).Some?
    ensures Follow(k, [Punct(kind)] + r)
  {
  }

  lemma FollowUp(k: nat, r: seq<Token>)
    requires Follow(k, r)
    ensures Follow(k + 1, r)
  {
  }

  lemma {:induction false} CompleteUnary(c: Cst, r: seq<Token>)
    requires Layered(UNARY, c) && Head(r) != LParen
    ensures ParseUnary(Yield(c) + r) == Found(Meaning(c), r)
    decreases c, 2
  {
    hide ParsePrimary, AtomMeaning, ParseLevel;
    if c.Prefix? {
      assert (Yield(c) + r)[1..] == Yield(c.operand) + r;
      CompleteUnary(c.operand, r);
    } else {
      CompletePrimary(c, r);
    }
  }

  lemma {:induction false} CompletePrimary(c: Cst, r: seq<Token>)
    requires IsPrimary(c) && Layered(PRIMARY, c) && Head(r) != LParen
    ensures ParsePrimary(Yield(c) + r) == Found(Meaning(c), r)
    ensures PrefixOp(Head(Yield(c) + r)).None?
    decreases c, 1
  {
    hide ParsePrimary, ParseLevel, PrefixOp, Yield, Meaning, Layered, Head;
    match c
    case Atom(_) => CompleteAtom(c, r);
    case RandomCall(_) => CompleteRandom(c, r);
    case Axis(_, _) => CompleteAxis(c, r);
    case Group(_) => CompleteGroup(c, r);
    case VarCall(_, _) => CompleteVar(c, r);
    case CondCall(_, _, _, _) => CompleteCond(c, r);
    case Call(_, _) => CompleteCall(c, r);
  }

  lemma CompleteRandom(c: Cst, r: seq<Token>)
    requires c.RandomCall? && Layered(PRIMARY, c)
    ensures ParsePrimary(Yield(c) + r) == Found(Meaning(c), r)
    ensures PrefixOp(Head(Yield(c) + r)).None?
  {
    hide KeywordOf, ParsePrimary, PrefixOp;
    var inside := [Punct(LParen)] + ([Punct(RParen)] + r);
    assert Yield(c) + r == [c.tok] + inside;
    assert inside[1..] == [Punct(RParen)] + r;
    assert inside[1..][1..] == r;
    PrimaryNamed(c.tok, inside);
  }

  lemma CompleteAxis(c: Cst, r: seq<Token>)
    requires c.Axis? && Layered(PRIMARY, c)
    ensures ParsePrimary(Yield(c) + r) == Found(Meaning(c), r)
    ensures PrefixOp(Head(Yield(c) + r)).None?
  {
    hide KeywordOf, ParsePrimary, PrefixOp;
    assert Yield(c) + r == [c.tok] + ([c.axis] + r);
    assert ([c.axis] + r)[1..] == r;
    PrimaryNamed(c.tok, [c.axis] + r);
  }

  lemma CompleteAtom(c: Cst, r: seq<Token>)
    requires c.Atom? && Layered(PRIMARY, c) && Head(r) != LParen
    ensures ParsePrimary(Yield(c) + r) == Found(Meaning(c), r)
    ensures PrefixOp(Head(Yield(c) + r)).None?
  {
    assert (Yield(c) + r)[1..] == r;
    if c.tok.kind == Ident {
      assert ParseNamed(Name(c.tok), r) == Found(AtomMeaning(c.tok), r);
    }
  }

  lemma {:induction false} CompleteGroup(c: Cst, r: seq<Token>)
    requires c.Group? && Layered(PRIMARY, c)
    ensures ParsePrimary(Yield(c) + r) == Found(Meaning(c), r)
    ensures PrefixOp(Head(Yield(c) + r)).None?
    decreases c, 0
  {
    hide ParseLevel, AtomMeaning, KeywordOf;
    assert (Yield(c) + r)[1..] == Yield(c.inner) + ([Punct(RParen)] + r);
    CompleteEnclosed(c.inner, RParen, r);
  }

  lemma {:induction false} CompleteVar(c: Cst, r: seq<Token>)
    requires c.VarCall? && Layered(PRIMARY, c)
    ensures ParsePrimary(Yield(c) + r) == Found(Meaning(c), r)
    ensures PrefixOp(Head(Yield(c) + r)).None?
    decreases c, 0
  {
    hide ParseLevel, KeywordOf, ParsePrimary, PrefixOp;
    var inside := Yield(c.arg) + ([Punct(RParen)] + r);
    assert Yield(c) + r == [c.tok] + ([Punct(LParen)] + inside);
    assert ([Punct(LParen)] + inside)[1..] == inside;
    CompleteEnclosed(c.arg, RParen, r);
    PrimaryNamed(c.tok, [Punct(LParen)] + inside);
  }

  /** An expression closed by a ')' or a ','. */
  lemma {:induction false} CompleteEnclosed(c: Cst, close: TokenKind, r: seq<Token>)
    requires Layered(0, c) && (close == RParen || close == Comma)
    ensures var tail := [Punct(close)] + r;
      ParseLevel(0, Yield(c) + tail) == Found(Meaning(c), tail) && tail[1..] == r && Head(tail) == close
    decreases c, PRIMARY + 3
  {
    hide ParseLevel, Layered, Yield, Meaning;
    CloserFollows(close, r);
    Complete(0, c, [Punct(close)] + r);
  }

  lemma CloserFollows(close: TokenKind, r: seq<Token>)
    requires close == RParen || close == Comma
    ensures Follow(0, [Punct(close)] + r)
  {
  }

  lemma {:induction false} CompleteCond(c: Cst, r: seq<Token>)
    requires c.CondCall? && Layered(PRIMARY, c)
    ensures ParsePrimary(Yield(c) + r) == Found(Meaning(c), r)
    ensures PrefixOp(Head(Yield(c) + r)).None?
    decreases c, 0
  {
    hide ParseLevel, KeywordOf, ParsePrimary, PrefixOp, ParseBranches;
    var last := Yield(c.b) + ([Punct(RParen)] + r);
    var mid := Yield(c.a) + ([Punct(Comma)] + last);
    var args := Yield(c.c) + ([Punct(Comma)] + mid);
    assert Yield(c) + r == [c.tok, Punct(LParen)] + args by {
      assert [c.tok, Punct(LParen)] + args == [c.tok, Punct(LParen)] + (Yield(c.c) + ([Punct(Comma)] +
        (Yield(c.a) + ([Punct(Comma)] + (Yield(c.b) + [Punct(RParen)]))))) + r;
    }
    CompleteBranches(c, r);
    CompleteEnclosed(c.c, Comma, mid);
    CondOf(c.tok, args);
  }

  lemma {:induction false} CompleteBranches(c: Cst, r: seq<Token>)
    requires c.CondCall? && Layered(PRIMARY, c)
    ensures ParseBranches(Meaning(c.c), Yield(c.a) + ([Punct(Comma)] + (Yield(c.b) + ([Punct(RParen)] + r))))
         == Found(Meaning(c), r)
    decreases c, 0, 0
  {
    CompleteEnclosed(c.a, Comma, Yield(c.b) + ([Punct(RParen)] + r));
    CompleteEnclosed(c.b, RParen, r);
  }

  lemma CondOf(tok: Token, args: seq<Token>)
    requires IsName(tok, KwCond)
    requires var o := ParseLevel(0, args); o.node.Some? && o.errs == [] && Head(o.rest) == Comma
    ensures var o := ParseLevel(0, args);
      ParsePrimary([tok, Punct(LParen)] + args) == Before([], ParseBranches(o.node.value, o.rest[1..]))
    ensures PrefixOp(Head([tok, Punct(LParen)] + args)).None?
  {
    hide ParseLevel, KeywordOf, ParseBranches, ParsePrimary, PrefixOp;
    assert [tok, Punct(LParen)] + args == [tok] + ([Punct(LParen)] + args);
    assert ([Punct(LParen)] + args)[1..] == args;
    PrimaryNamed(tok, [Punct(LParen)] + args);
  }

  lemma {:induction false} CompleteCall(c: Cst, r: seq<Token>)
    requires c.Call? && Layered(PRIMARY, c)
    ensures ParsePrimary(Yield(c) + r) == Found(Meaning(c), r)
    ensures PrefixOp(Head(Yield(c) + r)).None?
    decreases c, 0, |c.args| + 1
  {
    hide ParseLevel, ParseArgs, KeywordOf, ParsePrimary, PrefixOp, YieldArgs;
    var close := [Punct(RParen)] + r;
    var inside := YieldArgs(c.args) + close;
    assert Yield(c) + r == [c.tok] + ([Punct(LParen)] + inside);
    assert ([Punct(LParen)] + inside)[1..] == inside;
    assert close[1..] == r;
    if c.args == [] {
      NoArgs(close);
    } else {
      CompleteArgs(c, c.args, r);
    }
    PrimaryNamed(c.tok, [Punct(LParen)] + inside);
  }

  lemma NoArgs(close: seq<Token>)
    ensures YieldArgs([]) + close == close && Meanings([]) == []
  {
  }

  lemma {:induction false} CompleteArgs(c: Cst, args: seq<Cst>, r: seq<Token>)
    requires c.Call? && args != [] && (forall i :: 0 <= i < |args| ==> Layered(0, args[i]) && args[i] < c)
    ensures var close := [Punct(RParen)] + r;
      && ParseArgs(YieldArgs(args) + close) == Args(Meanings(args), close, [])
      && Head(YieldArgs(args) + close) != RParen
    decreases c, 0, |args|
  {
    hide ParseLevel, Yield, Meaning;
    var close := [Punct(RParen)] + r;
    NeverCloses(args[0]);
    if |args| == 1 {
      CompleteEnclosed(args[0], RParen, r);
      assert Meanings(args[1..]) == [];
    } else {
      var rest := YieldArgs(args[1..]) + close;
      assert YieldArgs(args) + close == Yield(args[0]) + ([Punct(Comma)] + rest);
      CompleteEnclosed(args[0], Comma, rest);
      CompleteArgs(c, args[1..], r);
    }
  }

  lemma {:induction false} NeverCloses(c: Cst)
    requires Layered(0, c)
    ensures Yield(c)[0].kind != RParen
  {
    if c.Infix? {
      LayeredMono(0, c.level, c.left);
      NeverCloses(c.left);
    }
  }
}
