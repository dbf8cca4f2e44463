/**
 What the evaluator's results mean, stated over the unbounded integers, the inputs
 supplied and the results of the operands.
 */
module ExprLaws {
  import opened Wrappers
  import opened Int64
  import opened ExprSyntax
  import opened ExprEval

  ghost predicate IsBool(v: EvalResult, b: bool) { v == Finite(BoolValue(b)) }

  /** Two operands that are integers. */
  ghost predicate Integers(l: Node, r: Node, inp: Inputs, x: int64, y: int64)
  {
    Evaluate(l, inp) == Finite(IntValue(x)) && Evaluate(r, inp) == Finite(IntValue(y))
  }

  /** An order comparison of integers says on which side of zero their exact difference lies. */
  lemma OrderMeasures(l: Node, r: Node, inp: Inputs, x: int64, y: int64)
    requires Integers(l, r, inp, x, y)
    ensures var difference: int := y as int - x as int;
      && IsBool(Holds(Lt, l, r, inp), difference > 0) && IsBool(Holds(Lte, l, r, inp), difference >= 0)
      && IsBool(Holds(Gt, l, r, inp), difference < 0) && IsBool(Holds(Gte, l, r, inp), difference <= 0)
  {
    hide Evaluate, Holds, Arithmetic, Compare;
    OperatorAt(Lt, l, r, inp);
    OperatorAt(Lte, l, r, inp);
    OperatorAt(Gt, l, r, inp);
    OperatorAt(Gte, l, r, inp);
  }

  /** Equality of integers says whether their difference is zero. */
  lemma EqualityMeasures(l: Node, r: Node, inp: Inputs, x: int64, y: int64)
    requires Integers(l, r, inp, x, y)
    ensures var difference: int := y as int - x as int;
      && IsBool(Holds(Eq, l, r, inp), difference == 0) && IsBool(Holds(AssignEq, l, r, inp), difference == 0)
      && IsBool(Holds(Neq, l, r, inp), difference != 0)
  {
    hide Evaluate, Holds, Arithmetic, Order;
    OperatorAt(Eq, l, r, inp);
    OperatorAt(AssignEq, l, r, inp);
    OperatorAt(Neq, l, r, inp);
  }

  /** The integer after x is larger exactly when there is one: adding one to the largest wraps around. */
  lemma SuccessorIsLarger(l: Node, inp: Inputs, x: int64)
    requires Evaluate(l, inp) == Finite(IntValue(x))
    ensures IsBool(Holds(Lt, l, BinaryExpr(ExprSyntax.Add, l, IntLiteral(1)), inp), x as int != MAX)
  {
    hide Holds, Congruent, IsBool;
    var one := IntLiteral(1);
    WrappingOperators(ExprSyntax.Add, l, one, inp, x, 1);
    var next := BinaryExpr(ExprSyntax.Add, l, one);
    var s := Evaluate(next, inp).value.i;
    WrapUnique(x as int + 1, s);
    OrderMeasures(l, next, inp, x, s);
    hide Evaluate;
    assert s as int - x as int > 0 <==> x as int != MAX;
  }

  /** The truth of a condition: of an integer, that it is not zero; of a text, none. */
  lemma TruthOfValues(c: Node, a: Node, b: Node, inp: Inputs, v: Value)
    requires Evaluate(c, inp) == Finite(v)
    ensures v.IntValue? ==>
      && Evaluate(CondExpr(c, a, b), inp) == (if v.i == 0 then Evaluate(b, inp) else Evaluate(a, inp))
      && IsBool(Evaluate(UnaryExpr(Not, c), inp), v.i == 0)
    ensures v.BoolValue? ==>
      && Evaluate(CondExpr(c, a, b), inp) == (if v.b then Evaluate(a, inp) else Evaluate(b, inp))
      && IsBool(Evaluate(UnaryExpr(Not, c), inp), !v.b)
    ensures v.StringValue? ==>
      && Evaluate(CondExpr(c, a, b), inp) == Unsupported(ConditionNotBoolean)
      && Evaluate(UnaryExpr(Not, c), inp) == Unsupported(NotExpectsBoolean)
  {
  }

  /** A conjunction or disjunction of any two integers. */
  lemma LogicOfIntegers(l: Node, r: Node, inp: Inputs, x: int64, y: int64)
    requires Integers(l, r, inp, x, y)
    ensures IsBool(Holds(And, l, r, inp), x != 0 && y != 0) && IsBool(Holds(Or, l, r, inp), x != 0 || y != 0)
  {
    LogicalOperators(l, r, inp, x != 0);
  }

  /** Negation of an integer is exact but for the smallest, which is its own negation. */
  lemma NegationMeans(n: Node, inp: Inputs, x: int64)
    requires Evaluate(n, inp) == Finite(IntValue(x))
    ensures Evaluate(UnaryExpr(ExprSyntax.Sub, n), inp) == Finite(IntValue(if x as int == MIN then x else 0 - x))
  {
  }

  // ---------- Inputs ----------

  /** Literals have their own value. */
  lemma LiteralValues(v: int64, s: string, inp: Inputs)
    ensures Evaluate(IntLiteral(v), inp) == Finite(IntValue(v))
    ensures Evaluate(StringLiteral(s), inp) == Finite(StringValue(s))
  {
  }

  /** An input that is supplied is the value of the expression that reads it; one that is not makes it dynamic. */
  lemma InputsAreRead(inp: Inputs, x: int64, s: string)
    ensures Evaluate(RandomExpr, inp.(random := Some(x))) == Finite(IntValue(x))
    ensures Evaluate(PosExpr("y"), inp.(posY := Some(x))) == Finite(IntValue(x))
    ensures Evaluate(CommandExpr, inp.(command := Some(s))) == Finite(StringValue(s))
    ensures Evaluate(StateTypeExpr, inp.(stateType := Some(s))) == Finite(StringValue(s))
    ensures Evaluate(RandomExpr, inp.(random := None)) == Dynamic(NeedsRandom)
    ensures Evaluate(PosExpr("y"), inp.(posY := None)) == Dynamic(NeedsPosY)
    ensures Evaluate(CommandExpr, inp.(command := None)) == Dynamic(NeedsCommand)
    ensures Evaluate(StateTypeExpr, inp.(stateType := None)) == Dynamic(NeedsStateType)
  {
  }

  /** `var` reads the entry its index names; any other axis than `y`, and any other name, is refused. */
  lemma VariablesAreRead(index: Node, inp: Inputs, i: int64, x: int64, table: map<int64, int64>)
    requires Evaluate(index, inp) == Finite(IntValue(i))
    ensures inp.vars == Some(table[i := x]) ==> Evaluate(VarExpr(index), inp) == Finite(IntValue(x))
    ensures inp.vars == Some(table) && i !in table ==> Evaluate(VarExpr(index), inp) == Dynamic(IndexUnresolved)
    ensures inp.vars == None ==> Evaluate(VarExpr(index), inp) == Dynamic(NoVarsTable)
  {
  }

  lemma RefusedNames(axis: string, name: string, args: seq<Node>, inp: Inputs)
    ensures axis != "y" ==> Evaluate(PosExpr(axis), inp) == Unsupported(UnsupportedAxis)
    ensures Evaluate(UnsupportedExpr(name, args), inp) == Unsupported(UnsupportedName(name))
  {
  }

  // ---------- Operands without a value ----------

  predicate IsArithmetic(op: Operator) { op in {ExprSyntax.Add, ExprSyntax.Sub, ExprSyntax.Mul, ExprSyntax.Div, ExprSyntax.Mod} }

  predicate IsComparison(op: Operator) { op in {Eq, Neq, AssignEq, Lt, Lte, Gt, Gte} }

  /**
   An unsupported operand decides a comparison or an arithmetic operation, whatever the
   other is; otherwise a dynamic one leaves it open.
   */
  lemma OperandsDecide(op: Operator, l: Node, r: Node, inp: Inputs)
    requires IsArithmetic(op) || IsComparison(op)
    ensures var a, b, v := Evaluate(l, inp), Evaluate(r, inp), Holds(op, l, r, inp);
      && (a.Unsupported? || b.Unsupported? ==>
            v == Unsupported(if IsArithmetic(op) then ArithmeticOperand else ComparisonOperand))
      && (!a.Unsupported? && !b.Unsupported? && (a.Dynamic? || b.Dynamic?) ==>
            v == Dynamic(if IsArithmetic(op) then NeedsArithmetic else NeedsComparison))
  {
    hide Int64.Add, Int64.Sub, Int64.Mul, Int64.Div, Int64.Mod;
    OperatorAt(op, l, r, inp);
    hide Evaluate;
  }

  /** Values an operation cannot take: each kind of operation refuses them for its own reason. */
  lemma ValuesRefused(op: Operator, l: Node, r: Node, inp: Inputs, a: Value, b: Value)
    requires Evaluate(l, inp) == Finite(a) && Evaluate(r, inp) == Finite(b)
    ensures IsArithmetic(op) && !(a.IntValue? && b.IntValue?) ==> Holds(op, l, r, inp) == Unsupported(ArithmeticIntegers)
    ensures op in {Lt, Lte, Gt, Gte} && !(a.IntValue? && b.IntValue?) ==>
      Holds(op, l, r, inp) == Unsupported(ComparisonIntegers)
    ensures op in {Eq, Neq, AssignEq} && !SameKind(a, b) ==> Holds(op, l, r, inp) == Unsupported(MixedTypes)
    ensures op == ExprSyntax.Div && a.IntValue? && b == IntValue(0) ==> Holds(op, l, r, inp) == Unsupported(DivisionByZero)
    ensures op == ExprSyntax.Mod && a.IntValue? && b == IntValue(0) ==> Holds(op, l, r, inp) == Unsupported(ModByZero)
  {
    hide Int64.Add, Int64.Sub, Int64.Mul, Int64.Div, Int64.Mod;
    if IsArithmetic(op) || IsComparison(op) {
      OperatorAt(op, l, r, inp);
    }
    hide Evaluate;
  }

  predicate SameKind(a: Value, b: Value)
  {
    (a.IntValue? && b.IntValue?) || (a.BoolValue? && b.BoolValue?) || (a.StringValue? && b.StringValue?)
  }

  /** A logical operator passes on a left operand without a value, and refuses one, or a right one it needs, without a truth. */
  lemma LogicRefused(l: Node, r: Node, inp: Inputs)
    ensures !Evaluate(l, inp).Finite? ==> Holds(And, l, r, inp) == Holds(Or, l, r, inp) == Evaluate(l, inp)
    ensures forall s :: Evaluate(l, inp) == Finite(StringValue(s)) ==>
      Holds(And, l, r, inp) == Holds(Or, l, r, inp) == Unsupported(LogicalOperand)
    ensures Evaluate(l, inp).Finite? && !Evaluate(l, inp).value.IntValue? ==>
      Evaluate(UnaryExpr(ExprSyntax.Sub, l), inp) == Unsupported(MinusExpectsInteger)
  {
  }

  /** A prefix operator, an index and a condition pass on an operand without a value; an index must be an integer. */
  lemma PassedOn(n: Node, a: Node, b: Node, inp: Inputs)
    ensures !Evaluate(n, inp).Finite? ==>
      && Evaluate(UnaryExpr(Not, n), inp) == Evaluate(UnaryExpr(ExprSyntax.Sub, n), inp) == Evaluate(n, inp)
      && Evaluate(VarExpr(n), inp) == Evaluate(CondExpr(n, a, b), inp) == Evaluate(n, inp)
    ensures Evaluate(n, inp).Finite? && !Evaluate(n, inp).value.IntValue? ==>
      Evaluate(VarExpr(n), inp) == Unsupported(IndexNotInteger)
  {
  }
}
