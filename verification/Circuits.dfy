/** Whole circuits of additions, subtractions, products and squares over ciphertexts: when they
    evaluate, what multiplicative budget they leave, and what message they carry. */
module Circuits {
  import opened Options
  import opened Extrema
  import opened ScaleLadder

  datatype Expr =
    | Input(index: nat)
    | Sum(left: Expr, right: Expr)
    | Difference(left: Expr, right: Expr)
    | Times(left: Expr, right: Expr)
    | Squared(arg: Expr)

  /** Every leaf names a well-formed ciphertext. */
  ghost predicate Closed(p: Parameters, e: Expr, env: seq<State>)
    requires p.Valid()
  {
    match e
    case Input(i) => i < |env| && Wf(p, env[i])
    case Sum(l, r) => Closed(p, l, env) && Closed(p, r, env)
    case Difference(l, r) => Closed(p, l, env) && Closed(p, r, env)
    case Times(l, r) => Closed(p, l, env) && Closed(p, r, env)
    case Squared(a) => Closed(p, a, env)
  }

  /** The library hands back a product whose budget is spent without complaint. It does not count as
      evaluated here, because what fails is the next step: see SpentProduct. */
  ghost function Usable(p: Parameters, s: State): Option<State>
    requires p.Valid()
  {
    if Wf(p, s) then Some(s) else None
  }

  ghost function Eval(p: Parameters, e: Expr, env: seq<State>): (r: Option<State>)
    requires p.Valid() && Closed(p, e, env)
    ensures r.Some? ==> Wf(p, r.value)
  {
    match e
    case Input(i) => Some(env[i])
    case Sum(l, r) =>
      var a, b := Eval(p, l, env), Eval(p, r, env);
      if a.None? || b.None? then None else Usable(p, AddResult(p, a.value, b.value, Plus))
    case Difference(l, r) =>
      var a, b := Eval(p, l, env), Eval(p, r, env);
      if a.None? || b.None? then None else Usable(p, AddResult(p, a.value, b.value, Minus))
    case Times(l, r) =>
      var a, b := Eval(p, l, env), Eval(p, r, env);
      if a.None? || b.None? then None else Usable(p, MultResult(p, a.value, b.value))
    case Squared(x) =>
      var a := Eval(p, x, env);
      if a.None? then None else Usable(p, MultResult(p, a.value, a.value))
  }

  /** The budget arithmetic a user of the library reckons with. */
  ghost function BudgetOf(p: Parameters, e: Expr, env: seq<State>): int
    requires p.Valid() && Closed(p, e, env)
  {
    match e
    case Input(i) => env[i].Budget()
    case Sum(l, r) => Min(BudgetOf(p, l, env), BudgetOf(p, r, env))
    case Difference(l, r) => Min(BudgetOf(p, l, env), BudgetOf(p, r, env))
    case Times(l, r) => Min(BudgetOf(p, l, env), BudgetOf(p, r, env)) - 1
    case Squared(a) => BudgetOf(p, a, env) - 1
  }

  function Depth(e: Expr): nat {
    match e
    case Input(_) => 0
    case Sum(l, r) => Max(Depth(l), Depth(r))
    case Difference(l, r) => Max(Depth(l), Depth(r))
    case Times(l, r) => Max(Depth(l), Depth(r)) + 1
    case Squared(a) => Depth(a) + 1
  }

  /** The circuit on plain numbers. */
  ghost function Plain(p: Parameters, e: Expr, env: seq<State>): real
    requires p.Valid() && Closed(p, e, env)
  {
    match e
    case Input(i) => env[i].Message()
    case Sum(l, r) => Plain(p, l, env) + Plain(p, r, env)
    case Difference(l, r) => Plain(p, l, env) - Plain(p, r, env)
    case Times(l, r) => Mul(Plain(p, l, env), Plain(p, r, env))
    case Squared(a) => Mul(Plain(p, a, env), Plain(p, a, env))
  }

  // ---- One operation ----

  /** Alignment does not care which operand is the receiver. */
  lemma OperandOrderIrrelevant(p: Parameters, a: State, b: State)
    requires p.Valid() && Wf(p, a) && Wf(p, b)
    ensures AddResult(p, a, b, Plus) == AddResult(p, b, a, Plus)
    ensures MultResult(p, a, b) == MultResult(p, b, a)
  {
    MultMeetingPoint(p, a, b);
    hide AlignedValue, Rescaled, Product, Parameters.Canonical;
    var d, l := MeetDegree(a, b), MeetLevel(a, b);
    ProductCommutes(MultOperand(p, a, d, l), MultOperand(p, b, d, l));
  }

  lemma ProductCommutes(x: State, y: State)
    requires x.level == y.level
    ensures Product(x, y) == Product(y, x)
  {
    var xy, yx := Product(x, y), Product(y, x);
    Commute(x.value, y.value, xy.value, yx.value);
    Commute(x.factor, y.factor, xy.factor, yx.factor);
  }

  lemma Commute(a: real, b: real, ab: real, ba: real)
    requires ab == a * b && ba == b * a
    ensures ab == ba
  {
  }

  /** A sum keeps the smaller budget and needs no other condition. */
  lemma SumBudget(p: Parameters, a: State, b: State, sign: Sign)
    requires p.Valid() && Wf(p, a) && Wf(p, b)
    ensures var s := AddResult(p, a, b, sign);
            Wf(p, s) && s.Budget() == Min(a.Budget(), b.Budget())
  {
  }

  /** A product costs exactly one unit of the smaller budget, and is usable if and only if there
      was one to spend. */
  lemma ProductBudget(p: Parameters, a: State, b: State)
    requires p.Valid() && Wf(p, a) && Wf(p, b)
    ensures var s := MultResult(p, a, b);
            && s.degree == 2
            && s.Budget() == Min(a.Budget(), b.Budget()) - 1
            && (Wf(p, s) <==> s.Budget() >= 0)
  {
    var d, l := MeetDegree(a, b), MeetLevel(a, b);
    MultMeetingPoint(p, a, b);
    hide AlignedValue, Aligned, Rescaled, MultOperand;
    var x, y := MultOperand(p, a, d, l), MultOperand(p, b, d, l);
    ProductScale(p, x, y);
    hide Parameters.Canonical, Product;
  }

  /** A spent product has degree 2 on the last tower. The rescale that begins a further product or scalar
      product of it, and every alignment to degree 1, would leave no tower at all. */
  lemma SpentProduct(p: Parameters, a: State, b: State)
    requires p.Valid() && Wf(p, a) && Wf(p, b)
    ensures var s := MultResult(p, a, b);
      && s.degree == 2 && 0 <= s.level <= p.L
      && (!Wf(p, s) <==> Rescaled(p, s).level < 0)
      && (!Wf(p, s) ==> s.level == 0)
  {
    ProductBudget(p, a, b);
    MultMeetingPoint(p, a, b);
    hide Aligned, AlignedValue, MultOperand, Rescaled, Wf;
  }

  lemma ProductScale(p: Parameters, x: State, y: State)
    requires p.Valid() && Wf(p, x) && Wf(p, y) && x.level == y.level && x.degree == y.degree == 1
    ensures var s := Product(x, y); s.level == x.level && s.degree == 2 && s.factor == p.Canonical(x.level, 2)
  {
  }

  lemma AlignedMessage(p: Parameters, s: State, degree: int, level: int)
    requires p.Valid() && p.technique != FIXEDAUTO && Wf(p, s) && 0 <= level <= p.L
    ensures Aligned(p, s, degree, level).Message() == s.Message()
  {
    Cancel(s.value / s.factor, p.Canonical(level, degree));
  }

  lemma MultOperandMessage(p: Parameters, s: State, degree: int, level: int)
    requires p.Valid() && p.technique != FIXEDAUTO && Wf(p, s)
    requires 1 <= degree <= 2 && degree - 1 <= level <= p.L
    ensures Wf(p, MultOperand(p, s, degree, level))
    ensures MultOperand(p, s, degree, level).Message() == s.Message()
  {
    MultOperandReady(p, s, degree, level);
    var t := Aligned(p, s, degree, level);
    AlignedMessage(p, s, degree, level);
    if degree == 2 {
      RescaledIsAligned(p, t);
      AlignedMessage(p, t, 1, level - 1);
    }
  }

  lemma CombineOverScale(x: real, y: real, f: real, sign: Sign)
    requires f != 0.0
    ensures Combine(x, y, sign) / f == Combine(x / f, y / f, sign)
  {
  }

  lemma ProductOverScales(x: State, y: State)
    requires x.factor > 0.0 && y.factor > 0.0
    ensures Product(x, y).factor > 0.0
    ensures Product(x, y).Message() == Mul(x.Message(), y.Message())
  {
    var a, b, fg := x.Message(), y.Message(), x.factor * y.factor;
    PositiveProduct(x.factor, y.factor, fg);
    Cancel(x.value, x.factor);
    Cancel(y.value, y.factor);
    Rearrange(a, x.factor, b, y.factor);
    Cancel(a * b, fg);
  }

  lemma Rearrange(a: real, f: real, b: real, g: real)
    ensures (a * f) * (b * g) == (a * b) * (f * g)
  {
  }

  lemma SumMessage(p: Parameters, a: State, b: State, sign: Sign)
    requires p.Valid() && p.technique != FIXEDAUTO && Wf(p, a) && Wf(p, b)
    ensures AddResult(p, a, b, sign).factor > 0.0
    ensures AddResult(p, a, b, sign).Message() == Combine(a.Message(), b.Message(), sign)
  {
    var d, l := MeetDegree(a, b), MeetLevel(a, b);
    AlignedMessage(p, a, d, l);
    AlignedMessage(p, b, d, l);
    var x, y := Aligned(p, a, d, l), Aligned(p, b, d, l);
    CombineOverScale(x.value, y.value, p.Canonical(l, d), sign);
  }

  lemma ProductMessage(p: Parameters, a: State, b: State)
    requires p.Valid() && p.technique != FIXEDAUTO && Wf(p, a) && Wf(p, b)
    ensures MultResult(p, a, b).factor > 0.0
    ensures MultResult(p, a, b).Message() == Mul(a.Message(), b.Message())
  {
    var d, l := MeetDegree(a, b), MeetLevel(a, b);
    MultMeetingPoint(p, a, b);
    MultOperandMessage(p, a, d, l);
    MultOperandMessage(p, b, d, l);
    hide *;
    ProductOverScales(MultOperand(p, a, d, l), MultOperand(p, b, d, l));
  }

  // ---- Whole circuits ----

  /** Main result on budgets: a circuit evaluates if and only if its reckoned budget is not
      negative, and the ciphertext it returns then has exactly that budget. */
  lemma {:induction false} CircuitBudget(p: Parameters, e: Expr, env: seq<State>)
    requires p.Valid() && Closed(p, e, env)
    ensures Eval(p, e, env).Some? <==> BudgetOf(p, e, env) >= 0
    ensures Eval(p, e, env).Some? ==> Eval(p, e, env).value.Budget() == BudgetOf(p, e, env)
  {
    hide AddResult, MultResult;
    match e
    case Input(_) =>
    case Squared(a) =>
      CircuitBudget(p, a, env);
      if Eval(p, a, env).Some? {
        ProductBudget(p, Eval(p, a, env).value, Eval(p, a, env).value);
      }
    case Sum(l, r) =>
      CircuitBudget(p, l, env);
      CircuitBudget(p, r, env);
      if Eval(p, l, env).Some? && Eval(p, r, env).Some? {
        SumBudget(p, Eval(p, l, env).value, Eval(p, r, env).value, Plus);
      }
    case Difference(l, r) =>
      CircuitBudget(p, l, env);
      CircuitBudget(p, r, env);
      if Eval(p, l, env).Some? && Eval(p, r, env).Some? {
        SumBudget(p, Eval(p, l, env).value, Eval(p, r, env).value, Minus);
      }
    case Times(l, r) =>
      CircuitBudget(p, l, env);
      CircuitBudget(p, r, env);
      if Eval(p, l, env).Some? && Eval(p, r, env).Some? {
        ProductBudget(p, Eval(p, l, env).value, Eval(p, r, env).value);
      }
  }

  ghost predicate InputsHave(p: Parameters, e: Expr, env: seq<State>, budget: int)
    requires p.Valid() && Closed(p, e, env)
  {
    match e
    case Input(i) => env[i].Budget() >= budget
    case Sum(l, r) => InputsHave(p, l, env, budget) && InputsHave(p, r, env, budget)
    case Difference(l, r) => InputsHave(p, l, env, budget) && InputsHave(p, r, env, budget)
    case Times(l, r) => InputsHave(p, l, env, budget) && InputsHave(p, r, env, budget)
    case Squared(a) => InputsHave(p, a, env, budget)
  }

  lemma {:induction false} BudgetAtLeast(p: Parameters, e: Expr, env: seq<State>, budget: int)
    requires p.Valid() && Closed(p, e, env) && InputsHave(p, e, env, budget)
    ensures BudgetOf(p, e, env) >= budget - Depth(e)
  {
    match e
    case Input(_) =>
    case Squared(a) => BudgetAtLeast(p, a, env, budget);
    case Sum(l, r) => BudgetAtLeast(p, l, env, budget); BudgetAtLeast(p, r, env, budget);
    case Difference(l, r) => BudgetAtLeast(p, l, env, budget); BudgetAtLeast(p, r, env, budget);
    case Times(l, r) => BudgetAtLeast(p, l, env, budget); BudgetAtLeast(p, r, env, budget);
  }

  /** A circuit of multiplicative depth D over inputs of budget at least D always evaluates. */
  lemma DepthSuffices(p: Parameters, e: Expr, env: seq<State>)
    requires p.Valid() && Closed(p, e, env) && InputsHave(p, e, env, Depth(e))
    ensures Eval(p, e, env).Some?
  {
    BudgetAtLeast(p, e, env, Depth(e));
    CircuitBudget(p, e, env);
  }

  ghost predicate InputsAre(p: Parameters, e: Expr, env: seq<State>, budget: int)
    requires p.Valid() && Closed(p, e, env)
  {
    match e
    case Input(i) => env[i].Budget() == budget
    case Sum(l, r) => InputsAre(p, l, env, budget) && InputsAre(p, r, env, budget)
    case Difference(l, r) => InputsAre(p, l, env, budget) && InputsAre(p, r, env, budget)
    case Times(l, r) => InputsAre(p, l, env, budget) && InputsAre(p, r, env, budget)
    case Squared(a) => InputsAre(p, a, env, budget)
  }

  lemma {:induction false} EvenBudget(p: Parameters, e: Expr, env: seq<State>, budget: int)
    requires p.Valid() && Closed(p, e, env) && InputsAre(p, e, env, budget)
    ensures BudgetOf(p, e, env) == budget - Depth(e)
  {
    match e
    case Input(_) =>
    case Squared(a) => EvenBudget(p, a, env, budget);
    case Sum(l, r) => EvenBudget(p, l, env, budget); EvenBudget(p, r, env, budget);
    case Difference(l, r) => EvenBudget(p, l, env, budget); EvenBudget(p, r, env, budget);
    case Times(l, r) => EvenBudget(p, l, env, budget); EvenBudget(p, r, env, budget);
  }

  /** Over inputs of one budget the depth decides: the circuit evaluates if and only if the budget is at
      least its multiplicative depth, and the result keeps what the depth leaves of it. */
  lemma DepthDecides(p: Parameters, e: Expr, env: seq<State>, budget: int)
    requires p.Valid() && Closed(p, e, env) && InputsAre(p, e, env, budget)
    ensures Eval(p, e, env).Some? <==> budget >= Depth(e)
    ensures Eval(p, e, env).Some? ==> Eval(p, e, env).value.Budget() == budget - Depth(e)
  {
    EvenBudget(p, e, env, budget);
    CircuitBudget(p, e, env);
  }

  /** Main result on messages, FLEXIBLE techniques: whenever a circuit evaluates, its message is the
      circuit's value on the input messages, whatever alignments happened on the way. */
  lemma {:induction false} CircuitMessage(p: Parameters, e: Expr, env: seq<State>)
    requires p.Valid() && p.technique != FIXEDAUTO && Closed(p, e, env)
    requires Eval(p, e, env).Some?
    ensures Eval(p, e, env).value.Message() == Plain(p, e, env)
  {
    hide AddResult, MultResult, State.Message, Parameters.Canonical, Wf, Parameters.Valid, Mul;
    match e
    case Input(_) =>
    case Squared(a) =>
      CircuitMessage(p, a, env);
      ProductMessage(p, Eval(p, a, env).value, Eval(p, a, env).value);
    case Sum(l, r) =>
      CircuitMessage(p, l, env);
      CircuitMessage(p, r, env);
      SumMessage(p, Eval(p, l, env).value, Eval(p, r, env).value, Plus);
    case Difference(l, r) =>
      CircuitMessage(p, l, env);
      CircuitMessage(p, r, env);
      SumMessage(p, Eval(p, l, env).value, Eval(p, r, env).value, Minus);
    case Times(l, r) =>
      CircuitMessage(p, l, env);
      CircuitMessage(p, r, env);
      ProductMessage(p, Eval(p, l, env).value, Eval(p, r, env).value);
  }
}
