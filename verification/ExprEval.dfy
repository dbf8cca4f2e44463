/**
 The partial evaluator.  A result is finite, waits for a runtime input (dynamic),
 or is unsupported.  The theorems say what "dynamic" means: the result is dynamic
 exactly when supplying more inputs can still change it.
 */
module ExprEval {
  import opened Wrappers
  import opened Int64
  import opened ExprSyntax

  datatype Value = IntValue(i: int64) | BoolValue(b: bool) | StringValue(s: string)

  datatype Reason =
    | UnsupportedAxis | ConditionNotBoolean | UnsupportedName(name: string)
    | NotExpectsBoolean | MinusExpectsInteger | UnsupportedUnary
    | LogicalOperand | LogicalRight
    | ComparisonOperand | MixedTypes | ComparisonIntegers
    | ArithmeticOperand | ArithmeticIntegers | DivisionByZero | ModByZero | UnsupportedBinary
    | IndexNotInteger

  datatype Missing =
    | NeedsRandom | NeedsCommand | NeedsPosY | NeedsStateType
    | NeedsComparison | NeedsArithmetic | NoVarsTable | IndexUnresolved

  datatype EvalResult = Finite(value: Value) | Dynamic(missing: Missing) | Unsupported(reason: Reason)

  /** Runtime values; None is a nil pointer or a nil map. */
  datatype Inputs = Inputs(
    vars: Option<map<int64, int64>>,
    posY: Option<int64>,
    command: Option<string>,
    stateType: Option<string>,
    random: Option<int64>)

  function ToBool(v: Value): Option<bool>
  {
    match v
    case BoolValue(b) => Some(b)
    case IntValue(i) => Some(i != 0)
    case StringValue(_) => None
  }

  function Evaluate(n: Node, inp: Inputs): EvalResult
  {
    match n
    case IntLiteral(v) => Finite(IntValue(v))
    case StringLiteral(s) => Finite(StringValue(s))
    case UnaryExpr(op, operand) => ApplyUnary(op, Evaluate(operand, inp))
    case BinaryExpr(op, l, r) =>
      if op == And || op == Or then
        var left := Evaluate(l, inp);
        if !left.Finite? then left
        else if ToBool(left.value).None? then Unsupported(LogicalOperand)
        else if op == And && !ToBool(left.value).value then Finite(BoolValue(false))
        else LogicalEnd(op == Or && ToBool(left.value).value, Evaluate(r, inp))
      else ApplyBinary(op, Evaluate(l, inp), Evaluate(r, inp))
    case VarExpr(index) => LookUp(Evaluate(index, inp), inp)
    case RandomExpr => if inp.random.None? then Dynamic(NeedsRandom) else Finite(IntValue(inp.random.value))
    case CommandExpr => if inp.command.None? then Dynamic(NeedsCommand) else Finite(StringValue(inp.command.value))
    case PosExpr(axis) =>
      if axis != "y" then Unsupported(UnsupportedAxis)
      else if inp.posY.None? then Dynamic(NeedsPosY) else Finite(IntValue(inp.posY.value))
    case StateTypeExpr =>
      if inp.stateType.None? then Dynamic(NeedsStateType) else Finite(StringValue(inp.stateType.value))
    case CondExpr(c, a, b) =>
      var cond := Evaluate(c, inp);
      if !cond.Finite? then cond
      else if ToBool(cond.value).None? then Unsupported(ConditionNotBoolean)
      else if ToBool(cond.value).value then Evaluate(a, inp) else Evaluate(b, inp)
    case UnsupportedExpr(name, _) => Unsupported(UnsupportedName(name))
  }

  function ApplyUnary(op: Operator, r: EvalResult): EvalResult
  {
    if !r.Finite? then r
    else match op
      case Not =>
        if ToBool(r.value).None? then Unsupported(NotExpectsBoolean) else Finite(BoolValue(!ToBool(r.value).value))
      case Sub => if !r.value.IntValue? then Unsupported(MinusExpectsInteger) else Finite(IntValue(Neg(r.value.i)))
      case _ => Unsupported(UnsupportedUnary)
  }

  /** The right operand of `&&` and `||`: `decided` when the left operand of `||` was true already. */
  function LogicalEnd(decided: bool, right: EvalResult): EvalResult
  {
    if !right.Finite? then right
    else if decided then Finite(BoolValue(true))
    else if ToBool(right.value).None? then Unsupported(LogicalRight)
    else Finite(BoolValue(ToBool(right.value).value))
  }

  function ApplyBinary(op: Operator, left: EvalResult, right: EvalResult): EvalResult
  {
    match op
    case Eq => Compare(false, left, right)
    case AssignEq => Compare(false, left, right)
    case Neq => Compare(true, left, right)
    case Lt => Order(op, left, right)
    case Lte => Order(op, left, right)
    case Gt => Order(op, left, right)
    case Gte => Order(op, left, right)
    case Add => Arithmetic(op, left, right)
    case Sub => Arithmetic(op, left, right)
    case Mul => Arithmetic(op, left, right)
    case Div => Arithmetic(op, left, right)
    case Mod => Arithmetic(op, left, right)
    case _ => Unsupported(UnsupportedBinary)
  }

  function Compare(negate: bool, left: EvalResult, right: EvalResult): EvalResult
  {
    if left.Unsupported? || right.Unsupported? then Unsupported(ComparisonOperand)
    else if left.Dynamic? || right.Dynamic? then Dynamic(NeedsComparison)
    else match (left.value, right.value)
      case (IntValue(x), IntValue(y)) => Finite(BoolValue((x == y) != negate))
      case (BoolValue(x), BoolValue(y)) => Finite(BoolValue((x == y) != negate))
      case (StringValue(x), StringValue(y)) => Finite(BoolValue((x == y) != negate))
      case _ => Unsupported(MixedTypes)
  }

  function Order(op: Operator, left: EvalResult, right: EvalResult): EvalResult
  {
    if left.Unsupported? || right.Unsupported? then Unsupported(ComparisonOperand)
    else if left.Dynamic? || right.Dynamic? then Dynamic(NeedsComparison)
    else if !left.value.IntValue? || !right.value.IntValue? then Unsupported(ComparisonIntegers)
    else
      var l, r := left.value.i, right.value.i;
      Finite(BoolValue(if op == Lt then l < r else if op == Lte then l <= r else if op == Gt then l > r else l >= r))
  }

  function Arithmetic(op: Operator, left: EvalResult, right: EvalResult): EvalResult
  {
    if left.Unsupported? || right.Unsupported? then Unsupported(ArithmeticOperand)
    else if left.Dynamic? || right.Dynamic? then Dynamic(NeedsArithmetic)
    else if !left.value.IntValue? || !right.value.IntValue? then Unsupported(ArithmeticIntegers)
    else
      var l, r := left.value.i, right.value.i;
      match op
      case Add => Finite(IntValue(Int64.Add(l, r)))
      case Sub => Finite(IntValue(Int64.Sub(l, r)))
      case Mul => Finite(IntValue(Int64.Mul(l, r)))
      case Div => if r == 0 then Unsupported(DivisionByZero) else Finite(IntValue(Int64.Div(l, r)))
      case _ => if r == 0 then Unsupported(ModByZero) else Finite(IntValue(Int64.Mod(l, r)))
  }

  function LookUp(index: EvalResult, inp: Inputs): EvalResult
  {
    if !index.Finite? then index
    else if !index.value.IntValue? then Unsupported(IndexNotInteger)
    else if inp.vars.None? then Dynamic(NoVarsTable)
    else if index.value.i !in inp.vars.value then Dynamic(IndexUnresolved)
    else Finite(IntValue(inp.vars.value[index.value.i]))
  }

  // ---------- Stability ----------

  /** o with more supplied is p: what o supplies, p supplies with the same value. */
  ghost predicate SameOrMissing<T(!new)>(o: Option<T>, p: Option<T>) { o.Some? ==> p == o }

  ghost predicate KeepsEntries(a: map<int64, int64>, b: map<int64, int64>)
  {
    forall i :: i in a ==> i in b && b[i] == a[i]
  }

  ghost predicate Extends(inp: Inputs, more: Inputs)
  {
    && (inp.vars.Some? ==> more.vars.Some? && KeepsEntries(inp.vars.value, more.vars.value))
    && SameOrMissing(inp.posY, more.posY)
    && SameOrMissing(inp.command, more.command)
    && SameOrMissing(inp.stateType, more.stateType)
    && SameOrMissing(inp.random, more.random)
  }

  lemma ExtendsTransitive(a: Inputs, b: Inputs, c: Inputs)
    requires Extends(a, b) && Extends(b, c)
    ensures Extends(a, c)
  {
  }

  /** A result that is not dynamic never changes when inputs are added. */
  lemma {:induction false} Stable(n: Node, inp: Inputs, more: Inputs)
    requires Extends(inp, more) && !Evaluate(n, inp).Dynamic?
    ensures Evaluate(n, more) == Evaluate(n, inp)
  {
    match n
    case UnaryExpr(op, operand) =>
      Stable(operand, inp, more);
    case BinaryExpr(op, l, r) =>
      if !Evaluate(l, inp).Dynamic? {
        Stable(l, inp, more);
      }
      if !Evaluate(r, inp).Dynamic? {
        Stable(r, inp, more);
      }
    case VarExpr(index) =>
      Stable(index, inp, more);
    case CondExpr(c, a, b) =>
      Stable(c, inp, more);
      var cond := Evaluate(c, inp);
      if cond.Finite? && ToBool(cond.value).Some? {
        Stable(if ToBool(cond.value).value then a else b, inp, more);
      }
    case _ =>
  }

  /** Some way of adding inputs makes the result definite. */
  lemma {:induction false} Completable(n: Node, inp: Inputs) returns (more: Inputs)
    ensures Extends(inp, more) && !Evaluate(n, more).Dynamic?
  {
    match n
    case UnaryExpr(op, operand) =>
      more := Completable(operand, inp);
    case BinaryExpr(op, l, r) =>
      var first := Completable(l, inp);
      more := Completable(r, first);
      Stable(l, first, more);
      ExtendsTransitive(inp, first, more);
    case VarExpr(index) =>
      var first := Completable(index, inp);
      var i := Evaluate(index, first);
      if i.Finite? && i.value.IntValue? && LookUp(i, first).Dynamic? {
        var table := if first.vars.Some? then first.vars.value else map[];
        more := first.(vars := Some(table[i.value.i := 0]));
        Stable(index, first, more);
        ExtendsTransitive(inp, first, more);
      } else {
        more := first;
      }
    case RandomExpr =>
      more := if inp.random.Some? then inp else inp.(random := Some(0));
    case CommandExpr =>
      more := if inp.command.Some? then inp else inp.(command := Some(""));
    case PosExpr(_) =>
      more := if inp.posY.Some? then inp else inp.(posY := Some(0));
    case StateTypeExpr =>
      more := if inp.stateType.Some? then inp else inp.(stateType := Some(""));
    case CondExpr(c, a, b) =>
      var first := Completable(c, inp);
      var second := Completable(a, first);
      more := Completable(b, second);
      ExtendsTransitive(first, second, more);
      ExtendsTransitive(inp, first, more);
      Stable(c, first, more);
      Stable(a, second, more);
    case _ =>
      more := inp;
  }

  /** Dynamic means undecided: exactly the results that some further input changes. */
  lemma DynamicIffUndecided(n: Node, inp: Inputs)
    ensures Evaluate(n, inp).Dynamic? <==>
            exists more :: Extends(inp, more) && Evaluate(n, more) != Evaluate(n, inp)
  {
    if Evaluate(n, inp).Dynamic? {
      var more := Completable(n, inp);
      assert Extends(inp, more) && Evaluate(n, more) != Evaluate(n, inp);
    } else {
      forall more | Extends(inp, more) ensures Evaluate(n, more) == Evaluate(n, inp) {
        Stable(n, inp, more);
      }
    }
  }

  /** Every input the tree mentions is supplied; `var` indices are the ones its index expressions give. */
  ghost predicate Supplied(n: Node, inp: Inputs)
  {
    match n
    case UnaryExpr(_, operand) => Supplied(operand, inp)
    case BinaryExpr(_, l, r) => Supplied(l, inp) && Supplied(r, inp)
    case VarExpr(index) =>
      Supplied(index, inp) && inp.vars.Some? &&
      (match Evaluate(index, inp)
       case Finite(IntValue(i)) => i in inp.vars.value
       case _ => true)
    case RandomExpr => inp.random.Some?
    case CommandExpr => inp.command.Some?
    case PosExpr(axis) => axis == "y" ==> inp.posY.Some?
    case StateTypeExpr => inp.stateType.Some?
    case CondExpr(c, a, b) => Supplied(c, inp) && Supplied(a, inp) && Supplied(b, inp)
    case _ => true
  }

  lemma {:induction false} SuppliedNeverDynamic(n: Node, inp: Inputs)
    requires Supplied(n, inp)
    ensures !Evaluate(n, inp).Dynamic?
  {
    match n
    case UnaryExpr(_, operand) =>
      SuppliedNeverDynamic(operand, inp);
    case BinaryExpr(_, l, r) =>
      SuppliedNeverDynamic(l, inp);
      SuppliedNeverDynamic(r, inp);
    case VarExpr(index) =>
      SuppliedNeverDynamic(index, inp);
    case CondExpr(c, a, b) =>
      SuppliedNeverDynamic(c, inp);
      SuppliedNeverDynamic(a, inp);
      SuppliedNeverDynamic(b, inp);
    case _ =>
  }

  // ---------- Arithmetic in trees ----------

  /** For operands that are integers, the tree (l / r) * r + l % r evaluates to l exactly when the divisor is not zero. */
  lemma DivisionTreeLaw(l: Node, r: Node, inp: Inputs, x: int64, y: int64)
    requires Evaluate(l, inp) == Finite(IntValue(x)) && Evaluate(r, inp) == Finite(IntValue(y))
    ensures Evaluate(BinaryExpr(Add, BinaryExpr(Mul, BinaryExpr(Div, l, r), r), BinaryExpr(Mod, l, r)), inp)
         == (if y != 0 then Finite(IntValue(x)) else Unsupported(ArithmeticOperand))
  {
    var q, m := BinaryExpr(Div, l, r), BinaryExpr(Mod, l, r);
    OperatorAt(Div, l, r, inp);
    OperatorAt(Mod, l, r, inp);
    OperatorAt(Mul, q, r, inp);
    OperatorAt(Add, BinaryExpr(Mul, q, r), m, inp);
    hide Evaluate, Compare, Order;
    if y == 0 {
      assert Evaluate(q, inp) == Unsupported(DivisionByZero);
      assert Evaluate(BinaryExpr(Mul, q, r), inp) == Unsupported(ArithmeticOperand);
    } else {
      DivModLaw(x, y);
      assert Evaluate(q, inp) == Finite(IntValue(Int64.Div(x, y)));
      assert Evaluate(m, inp) == Finite(IntValue(Int64.Mod(x, y)));
      assert Evaluate(BinaryExpr(Mul, q, r), inp) == Finite(IntValue(Int64.Mul(Int64.Div(x, y), y)));
    }
  }

  /** v is the integer of 64 bits with the same low bits as x. */
  ghost predicate IsWrapped(v: EvalResult, x: int)
  {
    v.Finite? && v.value.IntValue? && Congruent(x, v.value.i)
  }

  /** q and m are the quotient, truncated toward zero, and the remainder of x by y. */
  ghost predicate IsDivision(x: int, y: int, q: int, m: int)
  {
    && x - q * y == m && Abs(m) < Abs(y)
    && (m != 0 ==> (m < 0 <==> x < 0))
  }

  /** Sums, differences and products of two integers are exact up to a multiple of 2^64. */
  lemma WrappingOperators(op: Operator, l: Node, r: Node, inp: Inputs, x: int64, y: int64)
    requires Evaluate(l, inp) == Finite(IntValue(x)) && Evaluate(r, inp) == Finite(IntValue(y))
    ensures var v := Evaluate(BinaryExpr(op, l, r), inp);
      && (op == Add ==> IsWrapped(v, x + y))
      && (op == Sub ==> IsWrapped(v, x - y))
      && (op == Mul ==> IsWrapped(v, x * y))
  {
    hide Wrap, Congruent;
    if op == Add || op == Sub || op == Mul {
      ArithmeticAt(op, l, r, inp, x, y);
      WrapUnique(x + y, Wrap(x + y));
      WrapUnique(x - y, Wrap(x - y));
      WrapUnique(x * y, Wrap(x * y));
    }
  }

  lemma ArithmeticAt(op: Operator, l: Node, r: Node, inp: Inputs, x: int64, y: int64)
    requires Evaluate(l, inp) == Finite(IntValue(x)) && Evaluate(r, inp) == Finite(IntValue(y))
    requires op == Add || op == Sub || op == Mul
    ensures Evaluate(BinaryExpr(op, l, r), inp)
         == Finite(IntValue(if op == Add then Int64.Add(x, y) else if op == Sub then Int64.Sub(x, y) else Int64.Mul(x, y)))
  {
    hide Wrap, Int64.Add, Int64.Sub, Int64.Mul;
  }

  function Holds(op: Operator, l: Node, r: Node, inp: Inputs): EvalResult { Evaluate(BinaryExpr(op, l, r), inp) }

  lemma OperatorAt(op: Operator, l: Node, r: Node, inp: Inputs)
    requires op != And && op != Or
    ensures Holds(op, l, r, inp) == ApplyBinary(op, Evaluate(l, inp), Evaluate(r, inp))
  {
    hide ApplyBinary;
  }

  /** Any two trees may change sides when the comparison is turned around, whatever their results are. */
  lemma ComparisonTurned(l: Node, r: Node, inp: Inputs)
    ensures Holds(Gt, l, r, inp) == Holds(Lt, r, l, inp)
    ensures Holds(Gte, l, r, inp) == Holds(Lte, r, l, inp)
    ensures Holds(Eq, l, r, inp) == Holds(Eq, r, l, inp) == Holds(AssignEq, l, r, inp)
  {
    hide Evaluate, Arithmetic, Holds;
    OperatorAt(Gt, l, r, inp);
    OperatorAt(Lt, r, l, inp);
    OperatorAt(Gte, l, r, inp);
    OperatorAt(Lte, r, l, inp);
    OperatorAt(Eq, l, r, inp);
    OperatorAt(Eq, r, l, inp);
    OperatorAt(AssignEq, l, r, inp);
  }

  /** `>=` is the opposite of `<` and `!=` that of `==`, of any two trees. */
  lemma ComparisonNegated(l: Node, r: Node, inp: Inputs)
    ensures Holds(Gte, l, r, inp) == Evaluate(UnaryExpr(Not, BinaryExpr(Lt, l, r)), inp)
    ensures Holds(Neq, l, r, inp) == Evaluate(UnaryExpr(Not, BinaryExpr(Eq, l, r)), inp)
  {
    hide Evaluate, Holds, Compare, Order, Arithmetic, ApplyUnary;
    OperatorAt(Gte, l, r, inp);
    OperatorAt(Lt, l, r, inp);
    OperatorAt(Eq, l, r, inp);
    OperatorAt(Neq, l, r, inp);
    NotAt(Lt, l, r, inp);
    NotAt(Eq, l, r, inp);
    OppositeResults(Evaluate(l, inp), Evaluate(r, inp));
  }

  lemma OppositeResults(a: EvalResult, b: EvalResult)
    ensures Order(Gte, a, b) == ApplyUnary(Not, Order(Lt, a, b))
    ensures Compare(true, a, b) == ApplyUnary(Not, Compare(false, a, b))
  {
  }

  lemma NotAt(op: Operator, l: Node, r: Node, inp: Inputs)
    ensures Evaluate(UnaryExpr(Not, BinaryExpr(op, l, r)), inp) == ApplyUnary(Not, Holds(op, l, r, inp))
  {
    hide ApplyUnary, ApplyBinary;
  }

  /** `<=` of any two trees is `<` or `==`, and two integers that are `<=` both ways are equal. */
  lemma SmallerOrEqual(l: Node, r: Node, inp: Inputs)
    ensures Holds(Lte, l, r, inp) == Holds(Or, BinaryExpr(Lt, l, r), BinaryExpr(Eq, l, r), inp)
    ensures IsTrue(Holds(Lte, l, r, inp)) && IsTrue(Holds(Lte, r, l, inp)) <==>
              Holds(Lt, l, r, inp).Finite? && IsTrue(Holds(Eq, l, r, inp))
  {
    hide Arithmetic, ApplyUnary;
    var a, b := Evaluate(l, inp), Evaluate(r, inp);
    OperatorAt(Lte, l, r, inp);
    OperatorAt(Lte, r, l, inp);
    OperatorAt(Lt, l, r, inp);
    OperatorAt(Eq, l, r, inp);
    OrAt(BinaryExpr(Lt, l, r), BinaryExpr(Eq, l, r), inp);
    hide Evaluate, Holds;
  }

  lemma OrAt(l: Node, r: Node, inp: Inputs)
    ensures var left, right := Evaluate(l, inp), Evaluate(r, inp);
      Holds(Or, l, r, inp)
      == if !left.Finite? then left
         else if ToBool(left.value).None? then Unsupported(LogicalOperand)
         else LogicalEnd(ToBool(left.value).value, right)
  {
    hide LogicalEnd, ApplyBinary;
  }

  predicate IsTrue(v: EvalResult) { v == Finite(BoolValue(true)) }

  /** `<=` chains. */
  lemma ComparisonChains(a: Node, b: Node, c: Node, inp: Inputs)
    requires IsTrue(Holds(Lte, a, b, inp)) && IsTrue(Holds(Lte, b, c, inp))
    ensures IsTrue(Holds(Lte, a, c, inp))
    ensures IsTrue(Holds(Lt, a, c, inp)) <==> IsTrue(Holds(Lt, a, b, inp)) || IsTrue(Holds(Lt, b, c, inp))
  {
    hide Wrap, Int64.Add, Int64.Sub, Int64.Mul, Int64.Div, Int64.Mod;
  }

  /**
   Two trees are equal exactly when they have one and the same finite value; a tree is
   equal to itself exactly when it has one; and equality goes on from tree to tree.
   */
  lemma EqualityLaws(l: Node, m: Node, r: Node, inp: Inputs)
    ensures IsTrue(Holds(Eq, l, r, inp)) <==> Evaluate(l, inp).Finite? && Evaluate(l, inp) == Evaluate(r, inp)
    ensures IsTrue(Holds(Eq, l, l, inp)) <==> Evaluate(l, inp).Finite?
    ensures IsTrue(Holds(Eq, l, m, inp)) && IsTrue(Holds(Eq, m, r, inp)) ==> IsTrue(Holds(Eq, l, r, inp))
  {
    hide Evaluate, Holds, Arithmetic, Order;
    OperatorAt(Eq, l, r, inp);
    OperatorAt(Eq, l, l, inp);
    OperatorAt(Eq, l, m, inp);
    OperatorAt(Eq, m, r, inp);
    EqualResults(Evaluate(l, inp), Evaluate(r, inp));
    EqualResults(Evaluate(l, inp), Evaluate(l, inp));
    EqualResults(Evaluate(l, inp), Evaluate(m, inp));
    EqualResults(Evaluate(m, inp), Evaluate(r, inp));
    hide Compare;
  }

  lemma EqualResults(a: EvalResult, b: EvalResult)
    ensures IsTrue(Compare(false, a, b)) <==> a.Finite? && a == b
  {
  }

  /** A condition with a truth selects its branch, whatever the other branch is; one without decides the result. */
  lemma ConditionSelects(c: Node, a: Node, b: Node, other: Node, inp: Inputs)
    ensures Truth(Evaluate(c, inp)) == Some(true) ==>
              Evaluate(CondExpr(c, a, other), inp) == Evaluate(a, inp) == Evaluate(CondExpr(UnaryExpr(Not, c), other, a), inp)
    ensures Truth(Evaluate(c, inp)) == Some(false) ==>
              Evaluate(CondExpr(c, other, b), inp) == Evaluate(b, inp) == Evaluate(CondExpr(UnaryExpr(Not, c), b, other), inp)
    ensures Truth(Evaluate(c, inp)).None? ==>
              Evaluate(CondExpr(c, a, b), inp) == Evaluate(CondExpr(c, b, a), inp) && !Evaluate(CondExpr(c, a, b), inp).Finite?
  {
    assert Truth(Evaluate(c, inp)).Some? ==>
      Evaluate(UnaryExpr(Not, c), inp) == Finite(BoolValue(!Truth(Evaluate(c, inp)).value));
  }

  /** Division and remainder of two integers, where no overflow is possible. */
  lemma DivisionOperators(l: Node, r: Node, inp: Inputs, x: int64, y: int64)
    requires Evaluate(l, inp) == Finite(IntValue(x)) && Evaluate(r, inp) == Finite(IntValue(y))
    requires y != 0 && !(x == MIN && y == -1)
    ensures var q, m := Evaluate(BinaryExpr(Div, l, r), inp), Evaluate(BinaryExpr(Mod, l, r), inp);
      && q.Finite? && q.value.IntValue? && m.Finite? && m.value.IntValue?
      && IsDivision(x, y, q.value.i, m.value.i)
  {
    ExactDivision(x, y, Quotient(x, y) * y);
    RemainderBound(x, y);
  }

  /** The truth of a finite result that has one. */
  function Truth(v: EvalResult): Option<bool> { if v.Finite? then ToBool(v.value) else None }

  /**
   The logical operators: `&&` looks at its right operand only when the left one
   is true; `||` always does, so that one it cannot evaluate spoils even a true
   left operand.
   */
  lemma LogicalOperators(l: Node, r: Node, inp: Inputs, a: bool)
    requires Truth(Evaluate(l, inp)) == Some(a)
    ensures var and, or, right := Evaluate(BinaryExpr(And, l, r), inp), Evaluate(BinaryExpr(Or, l, r), inp), Evaluate(r, inp);
      && (!a ==> and == Finite(BoolValue(false)))
      && (!right.Finite? ==> or == right && (a ==> and == right))
      && (a && right.Finite? ==> or == Finite(BoolValue(true)))
      && (right.Finite? && Truth(right).None? ==> (if a then and else or) == Unsupported(LogicalRight))
      && (Truth(right).Some? ==> and == Finite(BoolValue(a && Truth(right).value)) && or == Finite(BoolValue(a || Truth(right).value)))
  {
  }

  /** De Morgan's law holds of results that have a truth, and fails when the right operand of a false `&&` has none. */
  lemma DeMorgan(l: Node, r: Node, inp: Inputs, a: bool)
    requires Truth(Evaluate(l, inp)) == Some(a)
    ensures var and := Evaluate(UnaryExpr(Not, BinaryExpr(And, l, r)), inp);
      var or := Evaluate(BinaryExpr(Or, UnaryExpr(Not, l), UnaryExpr(Not, r)), inp);
      and == or <==> Truth(Evaluate(r, inp)).Some? || (a && !Evaluate(r, inp).Finite?)
  {
    LogicalOperators(l, r, inp, a);
    assert Evaluate(UnaryExpr(Not, l), inp) == Finite(BoolValue(!a));
    if Truth(Evaluate(r, inp)).Some? {
      assert Evaluate(UnaryExpr(Not, r), inp) == Finite(BoolValue(!Truth(Evaluate(r, inp)).value));
    }
  }

  /** The value of a tree of sums, differences, products and negations over the unbounded integers. */
  ghost function Exact(n: Node, inp: Inputs): Option<int>
  {
    match n
    case UnaryExpr(Sub, operand) =>
      (match Exact(operand, inp) case Some(x) => Some(0 - x) case None => None)
    case BinaryExpr(op, l, r) =>
      (match (Exact(l, inp), Exact(r, inp))
       case (Some(x), Some(y)) =>
         if op == Add then Some(x + y) else if op == Sub then Some(x - y) else if op == Mul then Some(x * y) else None
       case _ => None)
    case UnaryExpr(_, _) => None
    case _ =>
      (match Evaluate(n, inp) case Finite(IntValue(i)) => Some(i) case _ => None)
  }

  /** Wrapping once at the end is the same as wrapping at every step. */
  lemma {:induction false} OverflowOnlyWraps(n: Node, inp: Inputs)
    requires Exact(n, inp).Some?
    ensures Evaluate(n, inp) == Finite(IntValue(Wrap(Exact(n, inp).value)))
  {
    hide Wrap, Evaluate;
    match n
    case UnaryExpr(op, operand) =>
      OverflowOnlyWraps(operand, inp);
      var x := Exact(operand, inp).value;
      WrapNegation(x);
      NegationAt(operand, inp, Wrap(x));
    case BinaryExpr(op, l, r) =>
      OverflowOnlyWraps(l, inp);
      OverflowOnlyWraps(r, inp);
      var x, y := Exact(l, inp).value, Exact(r, inp).value;
      ArithmeticAt(op, l, r, inp, Wrap(x), Wrap(y));
      WrapSum(x, y);
      WrapDifference(x, y);
      WrapProduct(x, y);
    case _ =>
      WrapFits(Exact(n, inp).value);
  }

  lemma NegationAt(operand: Node, inp: Inputs, x: int64)
    requires Evaluate(operand, inp) == Finite(IntValue(x))
    ensures Evaluate(UnaryExpr(Sub, operand), inp) == Finite(IntValue(Neg(x)))
  {
    hide Neg;
  }
}
