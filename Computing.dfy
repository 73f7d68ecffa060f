/**
 * Computer: the evaluation of an expression tree on one tuple of variable values, and the
 * MIN, MAX, AVG and COUNT computations over all tuples and expressions.
 */
module Computing {
  import opened Wrappers
  import opened JavaStrings
  import opened Numbers
  import opened Expressions
  import opened Kinds
  import opened Failures
  import opened Platforms
  import opened VariableDomains

  // ---------------------------------------------------------------------------
  // evaluateNode

  /**
   * A constant yields its value, a variable the tuple's value at the variable's index, and an
   * operator applies its function once both children are evaluated, left first; a NaN child,
   * and a division by zero, raise the arithmetic exceptions instead. It fails only on a
   * variable the function does not define, on a tuple too short for a variable's index, or
   * with one of the three arithmetic exceptions.
   */
  function Eval(p: Platform, f: VariableValuesFunction, tuple: seq<real>, n: Node): (res: Result<Num, Raised>)
    ensures res.Failure? ==> IsEvalError(f, n, res.error)
    decreases n
  {
    match n
    case Constant(t) => Success(Val(ConstantValue(t)))
    case Variable(x) =>
      var i :- VariableIndex(f, x);
      if i < |tuple| then Success(Val(tuple[i]))
      else Failure(RuntimeException(IndexOutOfBounds(i, |tuple|)))
    case Operator(op, l, r) =>
      var a :- Eval(p, f, tuple, l);
      var b :- Eval(p, f, tuple, r);
      if a.NaN? || b.NaN? then
        Failure(ComputationException(Arithmetic(NotANumber), "NaN obtained during computation"))
      else if op == Div && b.v == 0.0 then
        if a.v == 0.0 then
          Failure(ComputationException(Arithmetic(ZeroOverZero), "Undefined result at node '" + p.nodeText(n) + "'"))
        else
          Failure(ComputationException(Arithmetic(DivisionByZero), "Division by zero at node '" + p.nodeText(n) + "'"))
      else Success(p.apply(op, a.v, b.v))
  }

  /**
   * Once both operands are evaluated, a NaN operand raises NotANumber, whatever the operator,
   * before the division checks: so dividing NaN by 0 is not a division by zero.
   */
  lemma NaNBeforeDivision(p: Platform, f: VariableValuesFunction, tuple: seq<real>, op: Op, l: Node, r: Node)
    ensures Eval(p, f, tuple, l) == Success(NaN) && Eval(p, f, tuple, r).Success? ==>
      Eval(p, f, tuple, Operator(op, l, r)) == Failure(ComputationException(Arithmetic(NotANumber), "NaN obtained during computation"))
    ensures Eval(p, f, tuple, l).Success? && Eval(p, f, tuple, r) == Success(NaN) ==>
      Eval(p, f, tuple, Operator(op, l, r)) == Failure(ComputationException(Arithmetic(NotANumber), "NaN obtained during computation"))
    ensures Eval(p, f, tuple, l) == Success(NaN) && Eval(p, f, tuple, r) == Success(Val(0.0)) ==>
      Eval(p, f, tuple, Operator(Div, l, r)).Failure? &&
      Eval(p, f, tuple, Operator(Div, l, r)).error.fault == Arithmetic(NotANumber)
  {
  }

  /** The only ways an evaluation fails. */
  predicate IsEvalError(f: VariableValuesFunction, n: Node, err: Raised)
  {
    (err.VariableValuesFunctionException? &&
     exists x :: x in FreeVariables(n) && x !in f.keys && err.message == "Invalid variable '" + x + "'") ||
    (err.RuntimeException? && err.cause.IndexOutOfBounds?) ||
    (err.ComputationException? && err.fault.Arithmetic?)
  }

  /** A successful evaluation looked up only variables the function defines. */
  lemma {:induction false} EvalSucceedsOnlyOnKnownVariables(p: Platform, f: VariableValuesFunction, tuple: seq<real>, n: Node)
    requires Eval(p, f, tuple, n).Success?
    ensures forall x :: x in FreeVariables(n) ==> x in f.keys
  {
    match n
    case Constant(_) =>
    case Variable(x) =>
    case Operator(op, l, r) =>
      EvalSucceedsOnlyOnKnownVariables(p, f, tuple, l);
      EvalSucceedsOnlyOnKnownVariables(p, f, tuple, r);
  }

  /** A variable the function does not define makes every evaluation of the tree fail. */
  lemma {:induction false} UnknownVariableFails(p: Platform, f: VariableValuesFunction, tuple: seq<real>, n: Node, x: string)
    requires x in FreeVariables(n) && x !in f.keys
    ensures Eval(p, f, tuple, n).Failure?
  {
    if Eval(p, f, tuple, n).Success? {
      EvalSucceedsOnlyOnKnownVariables(p, f, tuple, n);
    }
  }

  /** A tuple as wide as the function's variable list never makes a lookup run off its end. */
  lemma {:induction false} WideTupleInBounds(p: Platform, f: VariableValuesFunction, tuple: seq<real>, n: Node)
    requires |tuple| == |f.keys|
    ensures Eval(p, f, tuple, n).Failure? ==> !Eval(p, f, tuple, n).error.RuntimeException?
  {
    match n
    case Constant(_) =>
    case Variable(x) =>
    case Operator(op, l, r) =>
      WideTupleInBounds(p, f, tuple, l);
      WideTupleInBounds(p, f, tuple, r);
  }

  /** Whether a tree contains a division. */
  predicate HasDivision(n: Node)
  {
    match n
    case Constant(_) => false
    case Variable(_) => false
    case Operator(op, l, r) => op == Div || HasDivision(l) || HasDivision(r)
  }

  /** The two division exceptions come only from a tree that divides. */
  lemma {:induction false} DivisionFaultsNeedDivision(p: Platform, f: VariableValuesFunction, tuple: seq<real>, n: Node)
    requires !HasDivision(n)
    ensures var r := Eval(p, f, tuple, n);
      r.Failure? && r.error.ComputationException? ==>
        r.error.fault != Arithmetic(DivisionByZero) && r.error.fault != Arithmetic(ZeroOverZero)
  {
    match n
    case Constant(_) =>
    case Variable(x) =>
    case Operator(op, l, r) =>
      DivisionFaultsNeedDivision(p, f, tuple, l);
      DivisionFaultsNeedDivision(p, f, tuple, r);
  }

  /** Two tuples of one length that agree at the index of every variable of the tree. */
  predicate AgreeOn(f: VariableValuesFunction, n: Node, t1: seq<real>, t2: seq<real>)
  {
    |t1| == |t2| &&
    forall i :: 0 <= i < |f.keys| && i < |t1| && f.keys[i] in FreeVariables(n) ==> t1[i] == t2[i]
  }

  /** The result depends only on the tuple values of the tree's own variables. */
  lemma {:induction false} EvalIsLocal(p: Platform, f: VariableValuesFunction, t1: seq<real>, t2: seq<real>, n: Node)
    requires AgreeOn(f, n, t1, t2)
    ensures Eval(p, f, t1, n) == Eval(p, f, t2, n)
  {
    match n
    case Constant(_) =>
    case Variable(x) =>
    case Operator(op, l, r) =>
      assert AgreeOn(f, l, t1, t2);
      assert AgreeOn(f, r, t1, t2);
      EvalIsLocal(p, f, t1, t2, l);
      EvalIsLocal(p, f, t1, t2, r);
  }

  /** A tree without variables evaluates alike under every function and every tuple. */
  lemma {:induction false} ClosedTreeIgnoresTuple(p: Platform, f1: VariableValuesFunction, f2: VariableValuesFunction,
                                                 t1: seq<real>, t2: seq<real>, n: Node)
    requires FreeVariables(n) == {}
    ensures Eval(p, f1, t1, n) == Eval(p, f2, t2, n)
  {
    match n
    case Constant(_) =>
    case Variable(x) =>
      assert false;
    case Operator(op, l, r) =>
      ClosedTreeIgnoresTuple(p, f1, f2, t1, t2, l);
      ClosedTreeIgnoresTuple(p, f1, f2, t1, t2, r);
  }

  // ---------------------------------------------------------------------------
  // computeMinMax

  /** The running minimum and maximum. */
  datatype Extremes = Extremes(min: real, max: real)

  /** The starting pair as written: Double.MAX_VALUE and Double.MIN_VALUE, which is positive. */
  const AsWrittenStart: Extremes := Extremes(DoubleMaxValue, DoubleMinValue)

  /** The starting pair the maximum needs: Double.MAX_VALUE and the lowest finite double. */
  const LowestStart: Extremes := Extremes(DoubleMaxValue, -DoubleMaxValue)

  /** One result taken in: it replaces the maximum if greater, the minimum if smaller; NaN compares false. */
  function Include(acc: Extremes, v: Num): Extremes
  {
    if v.NaN? then acc
    else Extremes(if v.v < acc.min then v.v else acc.min, if v.v > acc.max then v.v else acc.max)
  }

  predicate Within(x: Extremes, v: Num)
  {
    v.NaN? || x.min <= v.v <= x.max
  }

  predicate Wider(r: Extremes, acc: Extremes)
  {
    r.min <= acc.min && acc.max <= r.max
  }

  /**
   * The catch clauses around one evaluation: each arithmetic exception is rethrown, same class,
   * its message kept at the end after the expression's text; every other exception passes through.
   */
  function Rewrap(e: Expression, err: Raised): (r: Raised)
    ensures r.ComputationException? <==> err.ComputationException?
    ensures err.ComputationException? ==> r.fault == err.fault
    ensures err.ComputationException? && err.fault.Arithmetic? ==>
      EndsWith(r.message, "'" + e.text + "' : " + err.message)
    ensures !(err.ComputationException? && err.fault.Arithmetic?) ==> r == err
  {
    if err.ComputationException? && err.fault.Arithmetic? then
      var lead := RewrapLead(err.fault.fault);
      var tail := "'" + e.text + "' : " + err.message;
      EndsWithConcat(lead, tail);
      ComputationException(err.fault, lead + tail)
    else err
  }

  /** What each rethrown message says before the expression's text. */
  function RewrapLead(fault: ArithmeticFault): string
  {
    match fault
    case ZeroOverZero => "A 0 / 0 division occurred while evaluating the expression "
    case DivisionByZero => "A division by 0 occurred while evaluating the expression "
    case NotANumber => "NaN found while evaluating the expression "
  }

  /** The inner loop of computeMinMax: one tuple, the expressions in order, from the pair acc. */
  function MinMaxRow(p: Platform, f: VariableValuesFunction, tuple: seq<real>, exprs: seq<Expression>,
                     acc: Extremes): Result<Extremes, Raised>
    decreases |exprs|
  {
    if exprs == [] then Success(acc)
    else
      var a :- MinMaxRow(p, f, tuple, exprs[..|exprs| - 1], acc);
      var e := exprs[|exprs| - 1];
      match Eval(p, f, tuple, e.root)
      case Failure(err) => Failure(Rewrap(e, err))
      case Success(v) => Success(Include(a, v))
  }

  /** The outer loop of computeMinMax: the tuples in order, each through the inner loop. */
  function MinMaxOver(p: Platform, f: VariableValuesFunction, tuples: seq<seq<real>>, exprs: seq<Expression>,
                      acc: Extremes): Result<Extremes, Raised>
    decreases |tuples|
  {
    if tuples == [] then Success(acc)
    else
      var a :- MinMaxOver(p, f, tuples[..|tuples| - 1], exprs, acc);
      MinMaxRow(p, f, tuples[|tuples| - 1], exprs, a)
  }

  lemma IncludeWidens(acc: Extremes, v: Num)
    ensures Wider(Include(acc, v), acc) && Within(Include(acc, v), v)
  {
  }

  /** On success every expression evaluates, and the pair only widens and covers every result. */
  lemma {:induction false} RowBounds(p: Platform, f: VariableValuesFunction, tuple: seq<real>, exprs: seq<Expression>, acc: Extremes)
    requires MinMaxRow(p, f, tuple, exprs, acc).Success?
    ensures var r := MinMaxRow(p, f, tuple, exprs, acc).value;
      Wider(r, acc) &&
      forall j :: 0 <= j < |exprs| ==>
        Eval(p, f, tuple, exprs[j].root).Success? && Within(r, Eval(p, f, tuple, exprs[j].root).value)
    decreases |exprs|
  {
    if exprs != [] {
      var pre := exprs[..|exprs| - 1];
      RowBounds(p, f, tuple, pre, acc);
      var a := MinMaxRow(p, f, tuple, pre, acc).value;
      IncludeWidens(a, Eval(p, f, tuple, exprs[|exprs| - 1].root).value);
      assert forall j :: 0 <= j < |pre| ==> pre[j] == exprs[j];
    }
  }

  /** Every evaluation of every tuple succeeds and lies within the final pair. */
  predicate Covers(p: Platform, f: VariableValuesFunction, tuples: seq<seq<real>>, exprs: seq<Expression>, r: Extremes)
  {
    forall i, j :: 0 <= i < |tuples| && 0 <= j < |exprs| ==>
      Eval(p, f, tuples[i], exprs[j].root).Success? && Within(r, Eval(p, f, tuples[i], exprs[j].root).value)
  }

  /** On success the minimum is at most, and the maximum at least, every non-NaN result. */
  lemma {:induction false} MinMaxBounds(p: Platform, f: VariableValuesFunction, tuples: seq<seq<real>>, exprs: seq<Expression>, acc: Extremes)
    requires MinMaxOver(p, f, tuples, exprs, acc).Success?
    ensures Wider(MinMaxOver(p, f, tuples, exprs, acc).value, acc)
    ensures Covers(p, f, tuples, exprs, MinMaxOver(p, f, tuples, exprs, acc).value)
    decreases |tuples|
  {
    if tuples != [] {
      var pre := tuples[..|tuples| - 1];
      MinMaxBounds(p, f, pre, exprs, acc);
      var a := MinMaxOver(p, f, pre, exprs, acc).value;
      RowBounds(p, f, tuples[|tuples| - 1], exprs, a);
      assert forall i :: 0 <= i < |pre| ==> pre[i] == tuples[i];
    }
  }

  /** The result of expression j on the tuple is v. */
  predicate Yields(p: Platform, f: VariableValuesFunction, tuple: seq<real>, exprs: seq<Expression>, j: int, v: real)
  {
    0 <= j < |exprs| && Eval(p, f, tuple, exprs[j].root) == Success(Val(v))
  }

  /** Each final bound is its starting value or the result of some expression. */
  lemma {:induction false} RowAttained(p: Platform, f: VariableValuesFunction, tuple: seq<real>, exprs: seq<Expression>, acc: Extremes)
    requires MinMaxRow(p, f, tuple, exprs, acc).Success?
    ensures var r := MinMaxRow(p, f, tuple, exprs, acc).value;
      (r.max == acc.max || exists j :: Yields(p, f, tuple, exprs, j, r.max)) &&
      (r.min == acc.min || exists j :: Yields(p, f, tuple, exprs, j, r.min))
    decreases |exprs|
  {
    if exprs != [] {
      var pre := exprs[..|exprs| - 1];
      RowAttained(p, f, tuple, pre, acc);
      var r := MinMaxRow(p, f, tuple, exprs, acc).value;
      var a := MinMaxRow(p, f, tuple, pre, acc).value;
      var last := |exprs| - 1;
      if r.max != a.max {
        assert Yields(p, f, tuple, exprs, last, r.max);
      } else if r.max != acc.max {
        var j :| Yields(p, f, tuple, pre, j, r.max);
        assert Yields(p, f, tuple, exprs, j, r.max);
      }
      if r.min != a.min {
        assert Yields(p, f, tuple, exprs, last, r.min);
      } else if r.min != acc.min {
        var j :| Yields(p, f, tuple, pre, j, r.min);
        assert Yields(p, f, tuple, exprs, j, r.min);
      }
    }
  }

  /** Some tuple and some expression yield v. */
  predicate SomeYields(p: Platform, f: VariableValuesFunction, tuples: seq<seq<real>>, exprs: seq<Expression>, v: real)
  {
    exists i, j :: 0 <= i < |tuples| && 0 <= j < |exprs| && Yields(p, f, tuples[i], exprs, j, v)
  }

  /** Each final bound of the whole computation is its starting value or some evaluation's result. */
  lemma {:induction false} MinMaxAttained(p: Platform, f: VariableValuesFunction, tuples: seq<seq<real>>, exprs: seq<Expression>, acc: Extremes)
    requires MinMaxOver(p, f, tuples, exprs, acc).Success?
    ensures var r := MinMaxOver(p, f, tuples, exprs, acc).value;
      (r.max == acc.max || SomeYields(p, f, tuples, exprs, r.max)) &&
      (r.min == acc.min || SomeYields(p, f, tuples, exprs, r.min))
    decreases |tuples|
  {
    if tuples != [] {
      var pre := tuples[..|tuples| - 1];
      var last := |tuples| - 1;
      MinMaxAttained(p, f, pre, exprs, acc);
      var a := MinMaxOver(p, f, pre, exprs, acc).value;
      var r := MinMaxOver(p, f, tuples, exprs, acc).value;
      RowAttained(p, f, tuples[last], exprs, a);
      if r.max != a.max {
        var j :| Yields(p, f, tuples[last], exprs, j, r.max);
      } else if r.max != acc.max {
        var i, j :| 0 <= i < |pre| && Yields(p, f, pre[i], exprs, j, r.max);
        assert pre[i] == tuples[i];
      }
      if r.min != a.min {
        var j :| Yields(p, f, tuples[last], exprs, j, r.min);
      } else if r.min != acc.min {
        var i, j :| 0 <= i < |pre| && Yields(p, f, pre[i], exprs, j, r.min);
        assert pre[i] == tuples[i];
      }
    }
  }

  /**
   * From the lowest finite double, the maximum of a computation in which some evaluation
   * yields a finite value is the result of some evaluation: the largest one.
   */
  lemma MaxIsLargestResult(p: Platform, f: VariableValuesFunction, tuples: seq<seq<real>>, exprs: seq<Expression>,
                           i: nat, j: nat, v: real)
    requires MinMaxOver(p, f, tuples, exprs, LowestStart).Success?
    requires i < |tuples| && Yields(p, f, tuples[i], exprs, j, v) && -DoubleMaxValue <= v
    ensures SomeYields(p, f, tuples, exprs, MinMaxOver(p, f, tuples, exprs, LowestStart).value.max)
    ensures v <= MinMaxOver(p, f, tuples, exprs, LowestStart).value.max
  {
    MinMaxBounds(p, f, tuples, exprs, LowestStart);
    MinMaxAttained(p, f, tuples, exprs, LowestStart);
  }

  /** Likewise the minimum, from Double.MAX_VALUE, is the smallest result. */
  lemma MinIsSmallestResult(p: Platform, f: VariableValuesFunction, tuples: seq<seq<real>>, exprs: seq<Expression>,
                            i: nat, j: nat, v: real)
    requires MinMaxOver(p, f, tuples, exprs, LowestStart).Success?
    requires i < |tuples| && Yields(p, f, tuples[i], exprs, j, v) && v <= DoubleMaxValue
    ensures SomeYields(p, f, tuples, exprs, MinMaxOver(p, f, tuples, exprs, LowestStart).value.min)
    ensures MinMaxOver(p, f, tuples, exprs, LowestStart).value.min <= v
  {
    MinMaxBounds(p, f, tuples, exprs, LowestStart);
    MinMaxAttained(p, f, tuples, exprs, LowestStart);
  }

  /** One variable x whose only tuple holds -5. */
  function NegativeDomain(): VariableValuesFunction
  {
    VariableValuesFunction(map["x" := [-5.0]], ["x"], Some(Grid), Some(Max))
  }

  /**
   * As written, MAX of the expression x over the single value -5 is Double.MIN_VALUE, a
   * positive number that no evaluation yields, instead of -5.
   */
  lemma AsWrittenMaxOfNegatives(p: Platform)
    ensures MinMaxOver(p, NegativeDomain(), [[-5.0]], [Expression(Variable("x"), "x")], AsWrittenStart)
         == Success(Extremes(-5.0, DoubleMinValue))
    ensures !SomeYields(p, NegativeDomain(), [[-5.0]], [Expression(Variable("x"), "x")], DoubleMinValue)
    ensures MinMaxOver(p, NegativeDomain(), [[-5.0]], [Expression(Variable("x"), "x")], LowestStart)
         == Success(Extremes(-5.0, -5.0))
  {
    var f := NegativeDomain();
    var tuples: seq<seq<real>> := [[-5.0]];
    var exprs := [Expression(Variable("x"), "x")];
    assert VariableIndex(f, "x") == Success(0);
    assert Eval(p, f, [-5.0], Variable("x")) == Success(Val(-5.0));
    assert tuples[..0] == [] && exprs[..0] == [];
    assert MinMaxRow(p, f, [-5.0], exprs, AsWrittenStart) == Success(Extremes(-5.0, DoubleMinValue));
    assert MinMaxRow(p, f, [-5.0], exprs, LowestStart) == Success(Extremes(-5.0, -5.0));
  }

  /**
   * As written, MAX is at least Double.MIN_VALUE and at least every value taken, and it is
   * Double.MIN_VALUE itself unless some evaluation yields it.
   */
  lemma AsWrittenMaxBounds(p: Platform, f: VariableValuesFunction, tuples: seq<seq<real>>, exprs: seq<Expression>)
    requires MinMaxOver(p, f, tuples, exprs, AsWrittenStart).Success?
    ensures var m := MinMaxOver(p, f, tuples, exprs, AsWrittenStart).value.max;
      DoubleMinValue <= m &&
      (forall i, j, v :: 0 <= i < |tuples| && Yields(p, f, tuples[i], exprs, j, v) ==> v <= m) &&
      (m == DoubleMinValue || SomeYields(p, f, tuples, exprs, m))
  {
    MinMaxBounds(p, f, tuples, exprs, AsWrittenStart);
    MinMaxAttained(p, f, tuples, exprs, AsWrittenStart);
  }

  /**
   * As written, MAX over values that are all at most 0 is Double.MIN_VALUE, whatever they are:
   * a positive number that no evaluation yields.
   */
  lemma AsWrittenMaxOfNonPositive(p: Platform, f: VariableValuesFunction, tuples: seq<seq<real>>, exprs: seq<Expression>)
    requires MinMaxOver(p, f, tuples, exprs, AsWrittenStart).Success?
    requires forall i, j, v :: 0 <= i < |tuples| && Yields(p, f, tuples[i], exprs, j, v) ==> v <= 0.0
    ensures MinMaxOver(p, f, tuples, exprs, AsWrittenStart).value.max == DoubleMinValue
    ensures !SomeYields(p, f, tuples, exprs, DoubleMinValue)
    ensures f.computationKind == Some(Max) ==> Compute(p, f, tuples, exprs, AsWrittenStart) == Success(Val(DoubleMinValue))
  {
    AsWrittenMaxBounds(p, f, tuples, exprs);
    assert DoubleMinValue > 0.0;
  }

  /** A failing evaluation ends the inner loop with its rewrapped error. */
  lemma {:induction false} RowStop(p: Platform, f: VariableValuesFunction, tuple: seq<real>, exprs: seq<Expression>,
                                   acc: Extremes, j: nat)
    requires j < |exprs| && MinMaxRow(p, f, tuple, exprs[..j], acc).Success?
    requires Eval(p, f, tuple, exprs[j].root).Failure?
    ensures MinMaxRow(p, f, tuple, exprs, acc) == Failure(Rewrap(exprs[j], Eval(p, f, tuple, exprs[j].root).error))
  {
    assert exprs[..j + 1][..j] == exprs[..j];
    RowFailureSticks(p, f, tuple, exprs, acc, j + 1);
  }

  lemma {:induction false} RowFailureSticks(p: Platform, f: VariableValuesFunction, tuple: seq<real>, exprs: seq<Expression>,
                                            acc: Extremes, n: nat)
    requires 0 < n <= |exprs| && MinMaxRow(p, f, tuple, exprs[..n], acc).Failure?
    ensures MinMaxRow(p, f, tuple, exprs, acc) == MinMaxRow(p, f, tuple, exprs[..n], acc)
    decreases |exprs| - n
  {
    if n == |exprs| {
      assert exprs[..n] == exprs;
    } else {
      assert exprs[..n + 1][..n] == exprs[..n];
      RowFailureSticks(p, f, tuple, exprs, acc, n + 1);
    }
  }

  /** A failing inner loop ends the outer loop with the same error. */
  lemma {:induction false} OverStop(p: Platform, f: VariableValuesFunction, tuples: seq<seq<real>>, exprs: seq<Expression>,
                                    acc: Extremes, i: nat, a: Extremes)
    requires i < |tuples| && MinMaxOver(p, f, tuples[..i], exprs, acc) == Success(a)
    requires MinMaxRow(p, f, tuples[i], exprs, a).Failure?
    ensures MinMaxOver(p, f, tuples, exprs, acc) == MinMaxRow(p, f, tuples[i], exprs, a)
  {
    assert tuples[..i + 1][..i] == tuples[..i];
    OverFailureSticks(p, f, tuples, exprs, acc, i + 1);
  }

  lemma {:induction false} OverFailureSticks(p: Platform, f: VariableValuesFunction, tuples: seq<seq<real>>, exprs: seq<Expression>,
                                             acc: Extremes, n: nat)
    requires 0 < n <= |tuples| && MinMaxOver(p, f, tuples[..n], exprs, acc).Failure?
    ensures MinMaxOver(p, f, tuples, exprs, acc) == MinMaxOver(p, f, tuples[..n], exprs, acc)
    decreases |tuples| - n
  {
    if n == |tuples| {
      assert tuples[..n] == tuples;
    } else {
      assert tuples[..n + 1][..n] == tuples[..n];
      OverFailureSticks(p, f, tuples, exprs, acc, n + 1);
    }
  }

  /**
   * computeMinMax from the starting pair start: AsWrittenStart is the code as written,
   * LowestStart the corrected one.
   */
  method ComputeMinMax(p: Platform, f: VariableValuesFunction, tuples: seq<seq<real>>, exprs: seq<Expression>,
                       start: Extremes)
    returns (r: Result<Extremes, Raised>)
    ensures r == MinMaxOver(p, f, tuples, exprs, start)
  {
    var acc := start;
    for i := 0 to |tuples|
      invariant MinMaxOver(p, f, tuples[..i], exprs, start) == Success(acc)
    {
      assert tuples[..i + 1][..i] == tuples[..i];
      var rowStart := acc;
      for j := 0 to |exprs|
        invariant MinMaxRow(p, f, tuples[i], exprs[..j], rowStart) == Success(acc)
      {
        assert exprs[..j + 1][..j] == exprs[..j];
        var result := Eval(p, f, tuples[i], exprs[j].root);
        if result.Failure? {
          RowStop(p, f, tuples[i], exprs, rowStart, j);
          OverStop(p, f, tuples, exprs, start, i, rowStart);
          return Failure(Rewrap(exprs[j], result.error));
        }
        acc := Include(acc, result.value);
      }
      assert exprs[..|exprs|] == exprs;
    }
    assert tuples[..|tuples|] == tuples;
    return Success(acc);
  }

  // ---------------------------------------------------------------------------
  // computeAvg

  /** Double addition; NaN absorbs. */
  function AddNum(a: Num, b: Num): Num
  {
    if a.NaN? || b.NaN? then NaN else Val(a.v + b.v)
  }

  /** sum / size; the empty sum over no tuples is 0 / 0, which is NaN. */
  function Quotient(s: Num, n: nat): (r: Num)
    ensures r.NaN? <==> s.NaN? || n == 0
  {
    if s.NaN? || n == 0 then NaN else Val(s.v / n as real)
  }

  /** The sum over the tuples of one expression's results, in tuple order; the first error ends it. */
  function SumOver(p: Platform, f: VariableValuesFunction, tuples: seq<seq<real>>, e: Expression): Result<Num, Raised>
    decreases |tuples|
  {
    if tuples == [] then Success(Val(0.0))
    else
      var s :- SumOver(p, f, tuples[..|tuples| - 1], e);
      var v :- Eval(p, f, tuples[|tuples| - 1], e.root);
      Success(AddNum(s, v))
  }

  /** The catch clause of computeAvg: an arithmetic exception becomes a plain ComputationException. */
  function AvgWrap(err: Raised): (r: Raised)
    ensures err.ComputationException? && err.fault.Arithmetic? ==> r.ComputationException? && r.fault == Plain
    ensures !(err.ComputationException? && err.fault.Arithmetic?) ==> r == err
  {
    if err.ComputationException? && err.fault.Arithmetic? then
      ComputationException(Plain, "An error occurred while computing AVG for the first expression : " + err.message)
    else err
  }

  /** computeAvg: the first expression only; its sum over the tuples divided by their number. */
  function Average(p: Platform, f: VariableValuesFunction, tuples: seq<seq<real>>, exprs: seq<Expression>): Result<Num, Raised>
  {
    if exprs == [] then Failure(RuntimeException(IndexOutOfBounds(0, 0)))
    else
      match SumOver(p, f, tuples, exprs[0])
      case Failure(err) => Failure(AvgWrap(err))
      case Success(s) => Success(Quotient(s, |tuples|))
  }

  /** The sum succeeds exactly when the expression evaluates on every tuple. */
  lemma {:induction false} SumSucceeds(p: Platform, f: VariableValuesFunction, tuples: seq<seq<real>>, e: Expression)
    ensures SumOver(p, f, tuples, e).Success? <==> forall i :: 0 <= i < |tuples| ==> Eval(p, f, tuples[i], e.root).Success?
    decreases |tuples|
  {
    if tuples != [] {
      var pre := tuples[..|tuples| - 1];
      SumSucceeds(p, f, pre, e);
      assert forall i :: 0 <= i < |pre| ==> pre[i] == tuples[i];
    }
  }

  /** The sum is NaN exactly when some tuple's result is NaN. */
  lemma {:induction false} SumIsNaN(p: Platform, f: VariableValuesFunction, tuples: seq<seq<real>>, e: Expression)
    requires SumOver(p, f, tuples, e).Success?
    ensures SumOver(p, f, tuples, e).value.NaN? <==>
      exists i :: 0 <= i < |tuples| && Eval(p, f, tuples[i], e.root) == Success(NaN)
    decreases |tuples|
  {
    if tuples != [] {
      var pre := tuples[..|tuples| - 1];
      SumIsNaN(p, f, pre, e);
      assert forall i :: 0 <= i < |pre| ==> pre[i] == tuples[i];
      var last := |tuples| - 1;
      if SumOver(p, f, pre, e).value.NaN? {
        var i :| 0 <= i < |pre| && Eval(p, f, pre[i], e.root) == Success(NaN);
        assert Eval(p, f, tuples[i], e.root) == Success(NaN);
      }
      if Eval(p, f, tuples[last], e.root) == Success(NaN) {
        assert exists i :: 0 <= i < |tuples| && Eval(p, f, tuples[i], e.root) == Success(NaN);
      }
    }
  }

  predicate InRange(r: Result<Num, Raised>, lo: real, hi: real)
  {
    r.Success? && r.value.Val? && lo <= r.value.v <= hi
  }

  /** n copies of x added up. */
  function Scale(x: real, n: nat): real
  {
    if n == 0 then 0.0 else Scale(x, n - 1) + x
  }

  lemma {:induction false} ScaleIsProduct(x: real, n: nat)
    ensures Scale(x, n) == x * n as real
  {
    if n > 0 {
      ScaleIsProduct(x, n - 1);
      assert x * n as real == x * (n - 1) as real + x;
    }
  }

  /** With every result in [lo, hi], the sum over n tuples lies between n copies of lo and of hi. */
  lemma {:induction false} SumBounds(p: Platform, f: VariableValuesFunction, tuples: seq<seq<real>>, e: Expression, lo: real, hi: real)
    requires forall i :: 0 <= i < |tuples| ==> InRange(Eval(p, f, tuples[i], e.root), lo, hi)
    ensures SumOver(p, f, tuples, e).Success? && SumOver(p, f, tuples, e).value.Val?
    ensures Scale(lo, |tuples|) <= SumOver(p, f, tuples, e).value.v <= Scale(hi, |tuples|)
    decreases |tuples|
  {
    if tuples != [] {
      var pre := tuples[..|tuples| - 1];
      var last := |tuples| - 1;
      assert forall i :: 0 <= i < |pre| ==> pre[i] == tuples[i];
      SumBounds(p, f, pre, e, lo, hi);
      assert InRange(Eval(p, f, tuples[last], e.root), lo, hi);
    }
  }

  /** A quotient by n > 0 of a sum within [n lo, n hi] lies in [lo, hi]. */
  lemma QuotientWithinBounds(lo: real, hi: real, n: real, s: real, a: real)
    requires n > 0.0 && a * n == s && lo * n <= s <= hi * n
    ensures lo <= a <= hi
  {
  }

  /** The arithmetic of the average: s / k for k > 0 and s between k copies of lo and of hi. */
  lemma QuotientOfScaled(lo: real, hi: real, k: nat, s: real)
    requires k > 0 && Scale(lo, k) <= s <= Scale(hi, k)
    ensures lo <= s / k as real <= hi
  {
    ScaleIsProduct(lo, k);
    ScaleIsProduct(hi, k);
    QuotientWithinBounds(lo, hi, k as real, s, s / k as real);
  }

  /** With every result of the first expression in [lo, hi], the average lies in [lo, hi] too. */
  lemma AverageWithinBounds(p: Platform, f: VariableValuesFunction, tuples: seq<seq<real>>, exprs: seq<Expression>, lo: real, hi: real)
    requires exprs != [] && tuples != []
    requires forall i :: 0 <= i < |tuples| ==> InRange(Eval(p, f, tuples[i], exprs[0].root), lo, hi)
    ensures Average(p, f, tuples, exprs).Success? && Average(p, f, tuples, exprs).value.Val?
    ensures lo <= Average(p, f, tuples, exprs).value.v <= hi
  {
    SumBounds(p, f, tuples, exprs[0], lo, hi);
    var s := SumOver(p, f, tuples, exprs[0]).value.v;
    assert Average(p, f, tuples, exprs) == Success(Val(s / |tuples| as real));
    QuotientOfScaled(lo, hi, |tuples|, s);
  }

  /** Only the first expression counts: the others are never evaluated. */
  lemma AverageIgnoresLaterExpressions(p: Platform, f: VariableValuesFunction, tuples: seq<seq<real>>,
                                       exprs: seq<Expression>, more: seq<Expression>)
    requires exprs != []
    ensures Average(p, f, tuples, exprs + more) == Average(p, f, tuples, exprs)
  {
    assert (exprs + more)[0] == exprs[0];
  }

  /** A failing tuple ends the sum with its error. */
  lemma {:induction false} SumStop(p: Platform, f: VariableValuesFunction, tuples: seq<seq<real>>, e: Expression, i: nat)
    requires i < |tuples| && SumOver(p, f, tuples[..i], e).Success?
    requires Eval(p, f, tuples[i], e.root).Failure?
    ensures SumOver(p, f, tuples, e) == Failure(Eval(p, f, tuples[i], e.root).error)
  {
    assert tuples[..i + 1][..i] == tuples[..i];
    SumFailureSticks(p, f, tuples, e, i + 1);
  }

  lemma {:induction false} SumFailureSticks(p: Platform, f: VariableValuesFunction, tuples: seq<seq<real>>, e: Expression, n: nat)
    requires 0 < n <= |tuples| && SumOver(p, f, tuples[..n], e).Failure?
    ensures SumOver(p, f, tuples, e) == SumOver(p, f, tuples[..n], e)
    decreases |tuples| - n
  {
    if n == |tuples| {
      assert tuples[..n] == tuples;
    } else {
      assert tuples[..n + 1][..n] == tuples[..n];
      SumFailureSticks(p, f, tuples, e, n + 1);
    }
  }

  /** computeAvg. */
  method ComputeAvg(p: Platform, f: VariableValuesFunction, tuples: seq<seq<real>>, exprs: seq<Expression>)
    returns (r: Result<Num, Raised>)
    ensures r == Average(p, f, tuples, exprs)
  {
    var sum := Val(0.0);
    if exprs == [] {
      return Failure(RuntimeException(IndexOutOfBounds(0, 0)));
    }
    var e := exprs[0];
    for i := 0 to |tuples|
      invariant SumOver(p, f, tuples[..i], e) == Success(sum)
    {
      assert tuples[..i + 1][..i] == tuples[..i];
      var v := Eval(p, f, tuples[i], e.root);
      if v.Failure? {
        SumStop(p, f, tuples, e, i);
        return Failure(AvgWrap(v.error));
      }
      sum := AddNum(sum, v.value);
    }
    assert tuples[..|tuples|] == tuples;
    return Success(Quotient(sum, |tuples|));
  }

  // ---------------------------------------------------------------------------
  // computeResult

  /** The value computeResult returns, or the exception it lets escape, with MIN and MAX folded from start. */
  function Compute(p: Platform, f: VariableValuesFunction, tuples: seq<seq<real>>, exprs: seq<Expression>,
                   start: Extremes): Result<Num, Raised>
  {
    match f.computationKind
    case None => Failure(RuntimeException(NullPointer))
    case Some(Min) =>
      var m :- MinMaxOver(p, f, tuples, exprs, start);
      Success(Val(m.min))
    case Some(Max) =>
      var m :- MinMaxOver(p, f, tuples, exprs, start);
      Success(Val(m.max))
    case Some(Avg) => Average(p, f, tuples, exprs)
    case Some(Count) => Success(Val(|tuples| as real))
  }

  /** COUNT is the number of tuples, whatever the expressions: none is evaluated. */
  lemma CountIgnoresExpressions(p: Platform, f: VariableValuesFunction, tuples: seq<seq<real>>, exprs: seq<Expression>,
                                 start: Extremes)
    requires f.computationKind == Some(Count)
    ensures Compute(p, f, tuples, exprs, start) == Success(Val(|tuples| as real))
  {
  }

  /** MIN and MAX fail together, and otherwise MIN is at most MAX once some evaluation yields a value. */
  lemma MinAtMostMax(p: Platform, f: VariableValuesFunction, tuples: seq<seq<real>>, exprs: seq<Expression>,
                     i: nat, j: nat, v: real)
    requires MinMaxOver(p, f, tuples, exprs, LowestStart).Success?
    requires i < |tuples| && Yields(p, f, tuples[i], exprs, j, v)
    ensures MinMaxOver(p, f, tuples, exprs, LowestStart).value.min <= v <= MinMaxOver(p, f, tuples, exprs, LowestStart).value.max
  {
    MinMaxBounds(p, f, tuples, exprs, LowestStart);
  }

  /** computeResult: dispatch on the function's computation kind, MIN and MAX folded from start. */
  method ComputeResult(p: Platform, f: VariableValuesFunction, tuples: seq<seq<real>>, exprs: seq<Expression>,
                       start: Extremes)
    returns (r: Result<Num, Raised>)
    ensures r == Compute(p, f, tuples, exprs, start)
  {
    match f.computationKind {
      case None =>
        r := Failure(RuntimeException(NullPointer));
      case Some(Min) =>
        var m := ComputeMinMax(p, f, tuples, exprs, start);
        r := if m.Failure? then Failure(m.error) else Success(Val(m.value.min));
      case Some(Max) =>
        var m := ComputeMinMax(p, f, tuples, exprs, start);
        r := if m.Failure? then Failure(m.error) else Success(Val(m.value.max));
      case Some(Avg) =>
        r := ComputeAvg(p, f, tuples, exprs);
      case Some(Count) =>
        r := Success(Val(|tuples| as real));
    }
  }
}
