/** From the text of an expression to its value. */
module ExprMeaning {
  import opened Text
  import opened Int64
  import opened ExprSyntax
  import opened ExprParser
  import ExprGrammar
  import opened ExprPrinter
  import opened ExprTexts
  import opened ExprEval
  import opened ExprLaws

  /** Text s is an expression, and v what it evaluates to. */
  ghost predicate Means(s: string, inp: Inputs, v: EvalResult)
  {
    ParseSource(s).Ok? && Evaluate(ParseSource(s).value, inp) == v
  }

  /** A decimal number is that integer, or the largest of 64 bits when it is larger. */
  lemma NumberText(n: nat, inp: Inputs)
    ensures Means(PrintDecimal(n), inp, Finite(IntValue(if n <= Int64.MAX then n else Int64.MAX)))
  {
    hide PrintDecimal, ParseInt, ParseSource;
    LiteralSaturates(n);
    var v := if n <= Int64.MAX then n else Int64.MAX;
    var tok := Token(Int, PrintDecimal(n));
    WritesAtom(tok, IntLiteral(v));
    JoinOne(tok);
    LowerLevel(0, PRIMARY, ExprGrammar.Atom(tok), IntLiteral(v), tok.text);
    SpelledParses(ExprGrammar.Atom(tok), IntLiteral(v), tok.text);
  }

  /** The text of an operation on two expressions. */
  function OperationText(l: Node, symbol: string, r: Node): string
    requires Built(l) && Built(r)
  {
    InParens(FullText(l)) + " " + symbol + " " + InParens(FullText(r))
  }

  lemma OperationIs(op: Operator, l: Node, r: Node, inp: Inputs)
    requires op != Not && Built(l) && Named(l) && Built(r) && Named(r)
    ensures Means(OperationText(l, OperatorText(op), r), inp, Holds(op, l, r, inp))
  {
    hide FullText, Evaluate, ParseSource, OperatorText, Built, Named;
    var n := BinaryExpr(op, l, r);
    assert Built(n) && Named(n) && FullText(n) == OperationText(l, OperatorText(op), r) by {
      WholeText(op, l, r);
    }
    FullTextParses(n);
  }

  lemma WholeText(op: Operator, l: Node, r: Node)
    requires op != Not && Built(l) && Named(l) && Built(r) && Named(r)
    ensures var n := BinaryExpr(op, l, r); Built(n) && Named(n) && FullText(n) == OperationText(l, OperatorText(op), r)
  {
  }

  /** What the comparison texts say of expressions that are integers. */
  lemma ComparisonTexts(l: Node, r: Node, inp: Inputs, x: int64, y: int64)
    requires Built(l) && Named(l) && Built(r) && Named(r) && Integers(l, r, inp, x, y)
    ensures Means(OperationText(l, "<", r), inp, Finite(BoolValue(x < y)))
    ensures Means(OperationText(l, "<=", r), inp, Finite(BoolValue(x <= y)))
    ensures Means(OperationText(l, ">", r), inp, Finite(BoolValue(x > y)))
    ensures Means(OperationText(l, ">=", r), inp, Finite(BoolValue(x >= y)))
    ensures Means(OperationText(l, "==", r), inp, Finite(BoolValue(x == y)))
    ensures Means(OperationText(l, "=", r), inp, Finite(BoolValue(x == y)))
    ensures Means(OperationText(l, "!=", r), inp, Finite(BoolValue(x != y)))
  {
    hide OperationText, Means, Evaluate, Holds, Built, Named, Integers;
    OrderMeasures(l, r, inp, x, y);
    EqualityMeasures(l, r, inp, x, y);
    OperationIs(Lt, l, r, inp);
    OperationIs(Lte, l, r, inp);
    OperationIs(Gt, l, r, inp);
    OperationIs(Gte, l, r, inp);
    OperationIs(Eq, l, r, inp);
    OperationIs(AssignEq, l, r, inp);
    OperationIs(Neq, l, r, inp);
  }

  /** And the logical ones. */
  lemma LogicTexts(l: Node, r: Node, inp: Inputs, x: int64, y: int64)
    requires Built(l) && Named(l) && Built(r) && Named(r) && Integers(l, r, inp, x, y)
    ensures Means(OperationText(l, "&&", r), inp, Finite(BoolValue(x != 0 && y != 0)))
    ensures Means(OperationText(l, "||", r), inp, Finite(BoolValue(x != 0 || y != 0)))
  {
    hide OperationText, Means, Evaluate, Holds, Built, Named, Integers;
    LogicOfIntegers(l, r, inp, x, y);
    OperationIs(And, l, r, inp);
    OperationIs(Or, l, r, inp);
  }

  /** Sums, differences and products that fit 64 bits are exact. */
  lemma ArithmeticTexts(l: Node, r: Node, inp: Inputs, x: int64, y: int64)
    requires Built(l) && Named(l) && Built(r) && Named(r) && Integers(l, r, inp, x, y)
    ensures MIN <= x + y <= MAX ==> Means(OperationText(l, "+", r), inp, Finite(IntValue(x + y)))
    ensures MIN <= x - y <= MAX ==> Means(OperationText(l, "-", r), inp, Finite(IntValue(x - y)))
    ensures MIN <= x * y <= MAX ==> Means(OperationText(l, "*", r), inp, Finite(IntValue(x * y)))
  {
    hide OperationText, Means, Evaluate, Built, Named, Congruent;
    WrappingOperators(ExprSyntax.Add, l, r, inp, x, y);
    WrappingOperators(ExprSyntax.Sub, l, r, inp, x, y);
    WrappingOperators(ExprSyntax.Mul, l, r, inp, x, y);
    OperationIs(ExprSyntax.Add, l, r, inp);
    OperationIs(ExprSyntax.Sub, l, r, inp);
    OperationIs(ExprSyntax.Mul, l, r, inp);
    Fits(Holds(ExprSyntax.Add, l, r, inp), x + y);
    Fits(Holds(ExprSyntax.Sub, l, r, inp), x - y);
    Fits(Holds(ExprSyntax.Mul, l, r, inp), x * y);
  }

  /** Division texts give a quotient and a remainder of the dividend; by zero they are refused. */
  lemma DivisionTexts(l: Node, r: Node, inp: Inputs, x: int64, y: int64) returns (q: int64, m: int64)
    requires Built(l) && Named(l) && Built(r) && Named(r) && Integers(l, r, inp, x, y)
    ensures y != 0 && !(x == MIN && y == -1) ==>
      && Means(OperationText(l, "/", r), inp, Finite(IntValue(q))) && Means(OperationText(l, "%", r), inp, Finite(IntValue(m)))
      && IsDivision(x, y, q, m)
    ensures y == 0 ==>
      && Means(OperationText(l, "/", r), inp, Unsupported(DivisionByZero))
      && Means(OperationText(l, "%", r), inp, Unsupported(ModByZero))
  {
    hide OperationText, Means, Evaluate, Built, Named, IsDivision;
    q, m := 0, 0;
    OperationIs(ExprSyntax.Div, l, r, inp);
    OperationIs(ExprSyntax.Mod, l, r, inp);
    if y == 0 {
      ValuesRefused(ExprSyntax.Div, l, r, inp, IntValue(x), IntValue(0));
      ValuesRefused(ExprSyntax.Mod, l, r, inp, IntValue(x), IntValue(0));
    } else if !(x == MIN && y == -1) {
      DivisionOperators(l, r, inp, x, y);
      q, m := Holds(ExprSyntax.Div, l, r, inp).value.i, Holds(ExprSyntax.Mod, l, r, inp).value.i;
    }
  }

  lemma Fits(v: EvalResult, x: int)
    requires IsWrapped(v, x)
    ensures MIN <= x <= MAX ==> v == Finite(IntValue(x))
  {
    WrapUnique(x, v.value.i);
    if MIN <= x <= MAX {
      WrapFits(x);
    }
  }
}
