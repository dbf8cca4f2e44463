/**
 The recursive-descent parser.  The functions say what each parse method leaves
 behind (a tree or none, the tokens not consumed, the errors added); the class
 `Parser` is the source's parser, its methods proved to do exactly that.

 Levels 0 to 5 are the binary levels `||`, `&&`, equality, comparison, sum and
 product; level 6 is the prefix operators, level 7 the primaries.
 */
module ExprParser {
  import opened Wrappers
  import opened Text
  import opened Int64
  import opened ExprSyntax
  import opened ExprLexer
  import opened LetterCase
  import opened StringLiterals

  const UNARY: nat := 6
  const PRIMARY: nat := 7

  datatype Outcome = Outcome(node: Option<Node>, rest: seq<Token>, errs: seq<ParseError>)

  function Head(ts: seq<Token>): TokenKind { if ts == [] then EOF else ts[0].kind }

  /** The operator a token kind stands for at a binary level. */
  function BinaryOp(k: nat, kind: TokenKind): Option<Operator>
  {
    match kind
    case OrOr => if k == 0 then Some(Or) else None
    case AndAnd => if k == 1 then Some(And) else None
    case EqEq => if k == 2 then Some(Eq) else None
    case NotEq => if k == 2 then Some(Neq) else None
    case Equal => if k == 2 then Some(AssignEq) else None
    case Less => if k == 3 then Some(Lt) else None
    case LessEq => if k == 3 then Some(Lte) else None
    case Greater => if k == 3 then Some(Gt) else None
    case GreaterEq => if k == 3 then Some(Gte) else None
    case Plus => if k == 4 then Some(Add) else None
    case Minus => if k == 4 then Some(Sub) else None
    case Star => if k == 5 then Some(Mul) else None
    case Slash => if k == 5 then Some(Div) else None
    case Percent => if k == 5 then Some(Mod) else None
    case _ => None
  }

  function PrefixOp(kind: TokenKind): Option<Operator>
  {
    match kind
    case Bang => Some(Not)
    case Minus => Some(Sub)
    case _ => None
  }

  /** What is reported when the right operand of an operator is missing. */
  function MissingRight(k: nat): ParseError
  {
    ExpectedExpression(if k == 0 then OrRight else if k == 1 then AndRight else OperatorRight)
  }

  function MissingOperand(kind: TokenKind): ParseError
  {
    ExpectedExpression(if kind == Bang then NotOperand else MinusOperand)
  }

  /** `strconv.ParseInt(text, 10, 64)` with its error ignored: out of range saturates, malformed is 0. */
  function ParseInt(text: string): int64
  {
    if text == "" || !AllDigits(text) then 0
    else if DecimalValue(text) <= MAX then DecimalValue(text) else MAX
  }

  /** A literal is read as its value, saturated at the largest int64. */
  lemma LiteralSaturates(n: nat)
    ensures ParseInt(PrintDecimal(n)) as int == if n <= MAX as int then n else MAX as int
  {
    DecimalRoundTrip(n);
  }

  function Found(n: Node, rest: seq<Token>): Outcome { Outcome(Some(n), rest, []) }

  function Fail(rest: seq<Token>, e: ParseError): Outcome { Outcome(None, rest, [e]) }

  function Before(errs: seq<ParseError>, o: Outcome): Outcome { o.(errs := errs + o.errs) }

  /** What every parse function keeps: it only consumes, it consumes something when it succeeds, it reports when it does not. */
  ghost predicate Progress(o: Outcome, ts: seq<Token>)
  {
    && |o.rest| <= |ts|
    && (o.node.Some? ==> |o.rest| < |ts|)
    && (o.node.None? ==> o.errs != [])
  }

  function ParseLevel(k: nat, ts: seq<Token>): (o: Outcome)
    requires k <= PRIMARY
    ensures Progress(o, ts)
    decreases |ts|, PRIMARY - k, 1
  {
    if k == PRIMARY then ParsePrimary(ts)
    else if k == UNARY then ParseUnary(ts)
    else
      var left := ParseLevel(k + 1, ts);
      if left.node.None? then left
      else Before(left.errs, ParseTail(k, left.node.value, left.rest))
  }

  /** The loop of a binary level: `left` is parsed, ts follows it. */
  function ParseTail(k: nat, left: Node, ts: seq<Token>): (o: Outcome)
    ensures |o.rest| <= |ts| && (o.node.None? ==> o.errs != [])
    decreases |ts|, 0, 0
  {
    var op := BinaryOp(k, Head(ts));
    if op.None? then Found(left, ts)
    else
      var right := ParseLevel(k + 1, ts[1..]);
      if right.node.None? then Outcome(None, right.rest, right.errs + [MissingRight(k)])
      else Before(right.errs, ParseTail(k, BinaryExpr(op.value, left, right.node.value), right.rest))
  }

  function ParseUnary(ts: seq<Token>): (o: Outcome)
    ensures Progress(o, ts)
    decreases |ts|, PRIMARY - UNARY, 0
  {
    var op := PrefixOp(Head(ts));
    if op.None? then ParsePrimary(ts)
    else
      var operand := ParseUnary(ts[1..]);
      if operand.node.None? then Outcome(None, operand.rest, operand.errs + [MissingOperand(ts[0].kind)])
      else operand.(node := Some(UnaryExpr(op.value, operand.node.value)))
  }

  function ParsePrimary(ts: seq<Token>): (o: Outcome)
    ensures Progress(o, ts)
    decreases |ts|, 0, 0
  {
    if Head(ts) == EOF then Fail(ts, ExpectedExpression(Input))
    else
      var t, rest := ts[0], ts[1..];
      match t.kind
      case Int => Found(IntLiteral(ParseInt(t.text)), rest)
      case Str =>
        var value := Unquote(t.text);
        if value.None? then Fail(rest, InvalidString)
        else Found(StringLiteral(value.value), rest)
      case LParen =>
        var inner := ParseLevel(0, rest);
        if inner.node.None? then inner
        else Close(inner, inner.node.value, GroupClose)
      case Ident => ParseNamed(ToLower(t.text), rest)
      case _ => Fail(rest, UnexpectedToken)
  }

  /** What follows a name. */
  function ParseNamed(name: string, ts: seq<Token>): (o: Outcome)
    ensures |o.rest| <= |ts| && (o.node.None? ==> o.errs != [])
    decreases |ts|, 0, 1
  {
    match KeywordOf(name)
    case KwVar => ParseVar(ts)
    case KwRandom => ParseRandom(ts)
    case KwCommand => Found(CommandExpr, ts)
    case KwPos =>
      if Head(ts) != Ident then Fail(ts, ExpectedToken(PosAxis))
      else Found(PosExpr(ToLower(ts[0].text)), ts[1..])
    case KwStateType => Found(StateTypeExpr, ts)
    case KwCond => ParseCond(ts)
    case NotKeyword => ParseCall(name, ts)
  }

  /** Consumes a ')' after o, giving `n`; without one, no tree. */
  function Close(o: Outcome, n: Node, site: Site): (r: Outcome)
    ensures |r.rest| <= |o.rest| && (r.node.None? ==> r.errs != [])
  {
    if Head(o.rest) == RParen then Outcome(Some(n), o.rest[1..], o.errs)
    else Outcome(None, o.rest, o.errs + [ExpectedToken(site)])
  }

  function ParseVar(ts: seq<Token>): (o: Outcome)
    ensures |o.rest| <= |ts| && (o.node.None? ==> o.errs != [])
    decreases |ts|, 0, 0
  {
    if Head(ts) != LParen then Fail(ts, ExpectedToken(VarOpen))
    else
      var arg := ParseLevel(0, ts[1..]);
      if arg.node.None? then Outcome(None, arg.rest, arg.errs + [ExpectedExpression(VarIndex)])
      else Close(arg, VarExpr(arg.node.value), VarClose)
  }

  /** The tokens from the first ')' on. */
  function SkipToParen(ts: seq<Token>): (r: seq<Token>)
    ensures |r| <= |ts|
  {
    if Head(ts) == EOF || Head(ts) == RParen then ts else SkipToParen(ts[1..])
  }

  function ParseRandom(ts: seq<Token>): (o: Outcome)
    ensures |o.rest| <= |ts| && o.node.Some?
  {
    if Head(ts) != LParen then Found(RandomExpr, ts)
    else if Head(ts[1..]) == RParen then Found(RandomExpr, ts[1..][1..])
    else
      var rest := SkipToParen(ts[1..]);
      if Head(rest) == RParen then Outcome(Some(RandomExpr), rest[1..], [RandomArity])
      else Outcome(Some(RandomExpr), rest, [RandomArity] + [ExpectedToken(RandomClose)])
  }

  function ParseCond(ts: seq<Token>): (o: Outcome)
    ensures |o.rest| <= |ts| && (o.node.None? ==> o.errs != [])
    decreases |ts|, 0, 0
  {
    if Head(ts) != LParen then Fail(ts, ExpectedToken(CondOpen))
    else
      var c := ParseLevel(0, ts[1..]);
      if c.node.None? then Outcome(None, c.rest, c.errs + [ExpectedExpression(CondCondition)])
      else if Head(c.rest) != Comma then
        Outcome(None, c.rest, c.errs + [ExpectedToken(CondFirstComma)])
      else
        Before(c.errs, ParseBranches(c.node.value, c.rest[1..]))
  }

  /** The two branches of a `cond`, its condition and first comma consumed. */
  function ParseBranches(c: Node, ts: seq<Token>): (o: Outcome)
    ensures |o.rest| <= |ts| && (o.node.None? ==> o.errs != [])
    decreases |ts|, PRIMARY + 1, 0
  {
    var a := ParseLevel(0, ts);
    if a.node.None? then Outcome(None, a.rest, a.errs + [ExpectedExpression(CondThen)])
    else if Head(a.rest) != Comma then Outcome(None, a.rest, a.errs + [ExpectedToken(CondSecondComma)])
    else
      var b := Before(a.errs, ParseLevel(0, a.rest[1..]));
      if b.node.None? then Outcome(None, b.rest, b.errs + [ExpectedExpression(CondElse)])
      else Close(b, CondExpr(c, a.node.value, b.node.value), CondClose)
  }

  datatype Args = Args(nodes: seq<Node>, rest: seq<Token>, errs: seq<ParseError>)

  function Given(o: Outcome): seq<Node> { if o.node.Some? then [o.node.value] else [] }

  /** One argument, then every further one a comma announces; missing arguments are dropped (and reported). */
  function ParseArgs(ts: seq<Token>): (a: Args)
    ensures |a.rest| <= |ts|
    decreases |ts|, PRIMARY + 1, 0
  {
    var first := ParseLevel(0, ts);
    var more := ParseMoreArgs(first.rest);
    Args(Given(first) + more.nodes, more.rest, first.errs + more.errs)
  }

  function ParseMoreArgs(ts: seq<Token>): (a: Args)
    ensures |a.rest| <= |ts|
    decreases |ts|, 0, 0
  {
    if Head(ts) != Comma then Args([], ts, []) else ParseArgs(ts[1..])
  }

  /** A name that is not a keyword, with or without a call. */
  function ParseCall(name: string, ts: seq<Token>): (o: Outcome)
    ensures |o.rest| <= |ts| && o.node.Some?
    decreases |ts|, 0, 0
  {
    if Head(ts) != LParen then Found(UnsupportedExpr(name, []), ts)
    else
      var a := if Head(ts[1..]) == RParen then Args([], ts[1..], []) else ParseArgs(ts[1..]);
      var call := UnsupportedExpr(name, a.nodes);
      if Head(a.rest) == RParen then Outcome(Some(call), a.rest[1..], a.errs)
      else Outcome(Some(call), a.rest, a.errs + [ExpectedToken(CallClose)])
  }

  /** The whole of `Parse`: lexer errors come first, then the parser's, then what is left over. */
  function ParseSource(source: string): Result<Node, seq<ParseError>>
  {
    var lexed := Lex(source);
    var o := ParseLevel(0, lexed.toks);
    var errs := lexed.errs + o.errs;
    if errs != [] then Err(errs)
    else if Head(o.rest) != EOF then Err([ExpectedToken(Trailing)])
    else Ok(o.node.value)
  }

  /** The parser object of the source: a token list, a cursor and an error list. */
  class Parser {
    const tokens: seq<Token>
    var pos: nat
    var errors: seq<ParseError>

    constructor (tokens: seq<Token>, errors: seq<ParseError>)
      ensures this.tokens == tokens && pos == 0 && this.errors == errors
    {
      this.tokens := tokens;
      pos := 0;
      this.errors := errors;
    }

    ghost predicate Valid()
      reads this
    {
      pos <= |tokens|
    }

    /** The tokens not consumed yet. */
    ghost function Rest(): seq<Token>
      reads this
      requires Valid()
    {
      tokens[pos..]
    }

    /** This parser stands where o ends, having added the errors of o to those it had. */
    ghost predicate At(o: Outcome, had: seq<ParseError>)
      reads this
    {
      Valid() && Rest() == o.rest && errors == had + o.errs
    }

    function Peek(): TokenKind
      reads this
      requires Valid()
      ensures Peek() == Head(Rest())
    {
      if pos >= |tokens| then EOF else tokens[pos].kind
    }

    method Advance() returns (t: Token)
      requires Valid() && pos < |tokens|
      modifies this`pos
      ensures Valid() && pos == old(pos) + 1 && Rest() == old(Rest())[1..] && t == old(Rest())[0]
    {
      t := tokens[pos];
      pos := pos + 1;
    }

    method AddError(e: ParseError)
      modifies this`errors
      ensures errors == old(errors) + [e]
    {
      errors := errors + [e];
    }

    method Match(kind: TokenKind) returns (matched: bool)
      requires Valid() && kind != EOF
      modifies this`pos
      ensures Valid() && matched == (Head(old(Rest())) == kind)
      ensures Rest() == if matched then old(Rest())[1..] else old(Rest())
    {
      matched := Peek() == kind;
      if matched {
        var _ := Advance();
      }
    }

    method Expect(kind: TokenKind, site: Site) returns (matched: bool)
      requires Valid() && kind != EOF
      modifies this
      ensures Valid() && matched == (Head(old(Rest())) == kind)
      ensures Rest() == if matched then old(Rest())[1..] else old(Rest())
      ensures errors == if matched then old(errors) else old(errors) + [ExpectedToken(site)]
    {
      matched := Match(kind);
      if !matched {
        AddError(ExpectedToken(site));
      }
    }

    lemma Associative(a: seq<ParseError>, b: seq<ParseError>, c: seq<ParseError>)
      ensures (a + b) + c == a + (b + c)
    {
    }

    /** The six binary methods of the source, indexed by level. */
    method Level(k: nat) returns (node: Option<Node>)
      requires Valid() && k <= PRIMARY
      modifies this
      ensures var o := ParseLevel(k, old(Rest())); node == o.node && At(o, old(errors))
      decreases |tokens| - pos, PRIMARY - k, 1
    {
      if k == PRIMARY {
        node := Primary();
        return;
      }
      if k == UNARY {
        node := Unary();
        return;
      }
      ghost var left := ParseLevel(k + 1, Rest());
      node := Level(k + 1);
      if node.Some? {
        Associative(old(errors), left.errs, ParseTail(k, left.node.value, left.rest).errs);
        node := LevelTail(k, node.value);
      }
    }

    /** The loop of a binary level, its left operand parsed. */
    method LevelTail(k: nat, first: Node) returns (node: Option<Node>)
      requires Valid() && k < UNARY
      modifies this
      ensures var o := ParseTail(k, first, old(Rest())); node == o.node && At(o, old(errors))
      decreases |tokens| - pos, 0, 0
    {
      hide ParseLevel, BinaryOp;
      var left := first;
      ghost var done: seq<ParseError> := [];
      while BinaryOp(k, Peek()).Some?
        invariant Valid() && pos >= old(pos)
        invariant errors == old(errors) + done
        invariant ParseTail(k, first, old(Rest())) == Before(done, ParseTail(k, left, Rest()))
        decreases |tokens| - pos
      {
        NoOperatorAtEnd(k);
        TailStep(k, left, Rest(), done);
        var t := Advance();
        ghost var o := ParseLevel(k + 1, Rest());
        Associative(old(errors), done, o.errs);
        done := done + o.errs;
        var right := Level(k + 1);
        if right.None? {
          Associative(old(errors), done, [MissingRight(k)]);
          AddError(MissingRight(k));
          return None;
        }
        left := BinaryExpr(BinaryOp(k, t.kind).value, left, right.value);
      }
      assert done + [] == done;
      node := Some(left);
    }

    lemma NoOperatorAtEnd(k: nat)
      ensures BinaryOp(k, EOF).None?
    {
    }

    /** One turn of the loop, seen from the specification. */
    lemma TailStep(k: nat, left: Node, ts: seq<Token>, done: seq<ParseError>)
      requires k < UNARY && BinaryOp(k, Head(ts)).Some?
      ensures var o := ParseLevel(k + 1, ts[1..]);
        Before(done, ParseTail(k, left, ts)) ==
        if o.node.None? then Outcome(None, o.rest, (done + o.errs) + [MissingRight(k)])
        else Before(done + o.errs,
                    ParseTail(k, BinaryExpr(BinaryOp(k, Head(ts)).value, left, o.node.value), o.rest))
    {
    }

    method Unary() returns (node: Option<Node>)
      requires Valid()
      modifies this
      ensures var o := ParseUnary(old(Rest())); node == o.node && At(o, old(errors))
      decreases |tokens| - pos, PRIMARY - UNARY, 0
    {
      var op := PrefixOp(Peek());
      if op.None? {
        node := Primary();
        return;
      }
      var t := Advance();
      ghost var operand := ParseUnary(Rest());
      node := Unary();
      if node.None? {
        Associative(old(errors), operand.errs, [MissingOperand(t.kind)]);
        AddError(MissingOperand(t.kind));
        return;
      }
      node := Some(UnaryExpr(op.value, node.value));
    }

    method Primary() returns (node: Option<Node>)
      requires Valid()
      modifies this
      ensures var o := ParsePrimary(old(Rest())); node == o.node && At(o, old(errors))
      decreases |tokens| - pos, 0, 0
    {
      hide ParseLevel, ParseNamed, Unquote;
      if Peek() == EOF {
        AddError(ExpectedExpression(Input));
        return None;
      }
      var t := Advance();
      if t.kind == Int {
        node := Some(IntLiteral(ParseInt(t.text)));
      } else if t.kind == Str {
        var value := Unquote(t.text);
        if value.None? {
          AddError(InvalidString);
          return None;
        }
        node := Some(StringLiteral(value.value));
      } else if t.kind == LParen {
        ghost var inner := ParseLevel(0, Rest());
        node := Level(0);
        if node.Some? {
          Associative(old(errors), inner.errs, [ExpectedToken(GroupClose)]);
          var closed := Expect(RParen, GroupClose);
          if !closed {
            return None;
          }
        }
      } else if t.kind == Ident {
        node := Named(ToLower(t.text));
      } else {
        AddError(UnexpectedToken);
        node := None;
      }
    }

    /** The identifier cases of a primary, the name already consumed. */
    method Named(name: string) returns (node: Option<Node>)
      requires Valid()
      modifies this
      ensures var o := ParseNamed(name, old(Rest())); node == o.node && At(o, old(errors))
      decreases |tokens| - pos, 0, 1
    {
      match KeywordOf(name) {
        case KwVar => node := VarCall();
        case KwRandom => node := Random();
        case KwCommand => node := Some(CommandExpr);
        case KwPos =>
          if Peek() != Ident {
            AddError(ExpectedToken(PosAxis));
            return None;
          }
          var axis := Advance();
          node := Some(PosExpr(ToLower(axis.text)));
        case KwStateType => node := Some(StateTypeExpr);
        case KwCond => node := Cond();
        case NotKeyword => node := Call(name);
      }
    }

    method VarCall() returns (node: Option<Node>)
      requires Valid()
      modifies this
      ensures var o := ParseVar(old(Rest())); node == o.node && At(o, old(errors))
      decreases |tokens| - pos, 0, 0
    {
      hide ParseLevel;
      var started := Expect(LParen, VarOpen);
      if !started {
        return None;
      }
      ghost var arg := ParseLevel(0, Rest());
      node := Level(0);
      if node.None? {
        Associative(old(errors), arg.errs, [ExpectedExpression(VarIndex)]);
        AddError(ExpectedExpression(VarIndex));
        return;
      }
      Associative(old(errors), arg.errs, [ExpectedToken(VarClose)]);
      var closed := Expect(RParen, VarClose);
      return if closed then Some(VarExpr(node.value)) else None;
    }

    method Random() returns (node: Option<Node>)
      requires Valid()
      modifies this
      ensures var o := ParseRandom(old(Rest())); node == o.node && At(o, old(errors))
    {
      var started := Match(LParen);
      if started {
        var closed := Match(RParen);
        if !closed {
          AddError(RandomArity);
          ghost var from := Rest();
          Associative(old(errors), [RandomArity], [ExpectedToken(RandomClose)]);
          while Peek() != EOF && Peek() != RParen
            invariant Valid() && SkipToParen(Rest()) == SkipToParen(from)
            invariant errors == old(errors) + [RandomArity]
            decreases |tokens| - pos
          {
            var _ := Advance();
          }
          closed := Expect(RParen, RandomClose);
        }
      }
      node := Some(RandomExpr);
    }

    method Cond() returns (node: Option<Node>)
      requires Valid()
      modifies this
      ensures var o := ParseCond(old(Rest())); node == o.node && At(o, old(errors))
      decreases |tokens| - pos, 0, 0
    {
      hide ParseLevel, ParseBranches;
      var ok := Expect(LParen, CondOpen);
      if !ok {
        return None;
      }
      ghost var before, o := errors, ParseLevel(0, Rest());
      var c := Level(0);
      if c.None? {
        Associative(before, o.errs, [ExpectedExpression(CondCondition)]);
        AddError(ExpectedExpression(CondCondition));
        return None;
      }
      Associative(before, o.errs, [ExpectedToken(CondFirstComma)]);
      ok := Expect(Comma, CondFirstComma);
      if !ok {
        return None;
      }
      Associative(before, o.errs, ParseBranches(c.value, Rest()).errs);
      node := Branches(c.value);
    }

    method Branches(c: Node) returns (node: Option<Node>)
      requires Valid()
      modifies this
      ensures var o := ParseBranches(c, old(Rest())); node == o.node && At(o, old(errors))
      decreases |tokens| - pos, PRIMARY + 1, 0
    {
      hide ParseLevel;
      ghost var before, o := errors, ParseLevel(0, Rest());
      var a := Level(0);
      if a.None? {
        Associative(before, o.errs, [ExpectedExpression(CondThen)]);
        AddError(ExpectedExpression(CondThen));
        return None;
      }
      Associative(before, o.errs, [ExpectedToken(CondSecondComma)]);
      var ok := Expect(Comma, CondSecondComma);
      if !ok {
        return None;
      }
      Associative(before, o.errs, ParseLevel(0, Rest()).errs);
      o := Before(o.errs, ParseLevel(0, Rest()));
      var b := Level(0);
      if b.None? {
        Associative(before, o.errs, [ExpectedExpression(CondElse)]);
        AddError(ExpectedExpression(CondElse));
        return None;
      }
      Associative(before, o.errs, [ExpectedToken(CondClose)]);
      ok := Expect(RParen, CondClose);
      return if ok then Some(CondExpr(c, a.value, b.value)) else None;
    }

    method Call(name: string) returns (node: Option<Node>)
      requires Valid()
      modifies this
      ensures var o := ParseCall(name, old(Rest())); node == o.node && At(o, old(errors))
      decreases |tokens| - pos, 0, 0
    {
      var started := Match(LParen);
      if !started {
        return Some(UnsupportedExpr(name, []));
      }
      var args: seq<Node> := [];
      ghost var a := if Peek() == RParen then Args([], Rest(), []) else ParseArgs(Rest());
      if Peek() != RParen {
        args := Arguments();
      }
      Associative(old(errors), a.errs, [ExpectedToken(CallClose)]);
      var _ := Expect(RParen, CallClose);
      node := Some(UnsupportedExpr(name, args));
    }

    method Arguments() returns (args: seq<Node>)
      requires Valid()
      modifies this
      ensures Valid() && pos >= old(pos)
      ensures var a := ParseArgs(old(Rest()));
        args == a.nodes && Rest() == a.rest && errors == old(errors) + a.errs
      decreases |tokens| - pos, PRIMARY + 1, 0
    {
      hide ParseLevel, ParseArgs;
      ghost var all := ParseArgs(Rest());
      ghost var done := ParseLevel(0, Rest()).errs;
      ArgsStep([], [], Rest());
      assert [] + all.nodes == all.nodes && [] + all.errs == all.errs && [] + done == done;
      var arg := Level(0);
      args := if arg.Some? then [arg.value] else [];
      ghost var tail := ParseMoreArgs(Rest());
      var more := Match(Comma);
      while more
        invariant Valid() && pos >= old(pos) && (more ==> pos > old(pos))
        invariant errors == old(errors) + done
        invariant tail == if more then ParseArgs(Rest()) else Args([], Rest(), [])
        invariant all == Args(args + tail.nodes, tail.rest, done + tail.errs)
        decreases |tokens| - pos, more
      {
        ghost var o := ParseLevel(0, Rest());
        ArgsStep(args, done, Rest());
        Associative(old(errors), done, o.errs);
        arg := Level(0);
        args := if arg.Some? then args + [arg.value] else args;
        done := done + o.errs;
        tail := ParseMoreArgs(Rest());
        more := Match(Comma);
      }
    }

    /** One argument more, seen from the specification. */
    lemma ArgsStep(args: seq<Node>, done: seq<ParseError>, ts: seq<Token>)
      ensures var a, o := ParseArgs(ts), ParseLevel(0, ts);
        var next := ParseMoreArgs(o.rest);
        && args + a.nodes == (if o.node.Some? then args + [o.node.value] else args) + next.nodes
        && a.rest == next.rest
        && done + a.errs == (done + o.errs) + next.errs
    {
      hide ParseLevel, ParseMoreArgs;
    }
  }

  /** Exactly one of a tree and a non-empty error list, and it is the one the functions above define. */
  method Parse(source: string) returns (node: Option<Node>, errs: seq<ParseError>)
    ensures node.Some? <==> errs == []
    ensures ParseSource(source) == if node.Some? then Ok(node.value) else Err(errs)
  {
    var toks, lexErrs := LexSource(source);
    var p := new Parser(toks, lexErrs);
    assert p.Rest() == toks;
    node := p.Level(0);
    if |p.errors| > 0 {
      return None, p.errors;
    }
    if p.Peek() != EOF {
      p.AddError(ExpectedToken(Trailing));
      assert p.errors == [ExpectedToken(Trailing)];
      return None, p.errors;
    }
    errs := [];
  }
}
