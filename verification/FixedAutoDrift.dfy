/** FIXEDAUTO books every rescale as a division by one constant while the towers' primes differ, so
    messages drift. This module bounds the drift of a whole circuit: if every prime is within a
    factor rho of the constant, the message stays within (Drift - 1) * Magnitude of the exact one. */
module FixedAutoDrift {
  import opened Options
  import opened ScaleLadder
  import opened Circuits

  function Abs(x: real): (r: real)
    ensures r >= x && r >= -x && (r == x || r == -x)
  {
    if x < 0.0 then -x else x
  }

  /** Every prime is within a factor `rho` of the booked constant, either way. */
  ghost predicate PrimesNear(p: Parameters, rho: real)
    requires p.Valid()
  {
    && p.technique == FIXEDAUTO && rho >= 1.0
    && forall l :: 0 <= l <= p.L ==>
         && p.prime[l] as real <= Mul(rho, p.scalingFactorReal[0])
         && p.scalingFactorReal[0] <= Mul(rho, p.prime[l] as real)
  }

  /** The circuit's value with every leaf, sum and difference taken in absolute value. */
  ghost function Magnitude(p: Parameters, e: Expr, env: seq<State>): real
    requires p.Valid() && Closed(p, e, env)
  {
    match e
    case Input(i) => Abs(env[i].Message())
    case Sum(l, r) => Magnitude(p, l, env) + Magnitude(p, r, env)
    case Difference(l, r) => Magnitude(p, l, env) + Magnitude(p, r, env)
    case Times(l, r) => Mul(Magnitude(p, l, env), Magnitude(p, r, env))
    case Squared(a) => Mul(Magnitude(p, a, env), Magnitude(p, a, env))
  }

  /** The magnitude with one factor rho for the alignment of each operand of a sum, and two (the
      alignment and the rescale) for each operand of a product. With rho = 1 it is the magnitude. */
  ghost function Reach(p: Parameters, e: Expr, env: seq<State>, rho: real): real
    requires p.Valid() && Closed(p, e, env)
  {
    match e
    case Input(i) => Abs(env[i].Message())
    case Sum(l, r) => Mul(rho, Reach(p, l, env, rho)) + Mul(rho, Reach(p, r, env, rho))
    case Difference(l, r) => Mul(rho, Reach(p, l, env, rho)) + Mul(rho, Reach(p, r, env, rho))
    case Times(l, r) => Mul(Mul(rho, Mul(rho, Reach(p, l, env, rho))), Mul(rho, Mul(rho, Reach(p, r, env, rho))))
    case Squared(a) => Mul(Mul(rho, Mul(rho, Reach(p, a, env, rho))), Mul(rho, Mul(rho, Reach(p, a, env, rho))))
  }

  /** `m` approximates `exact`, of magnitude at most `size`, with an error within `reach - size`. */
  ghost predicate Near(m: real, exact: real, size: real, reach: real) {
    Abs(exact) <= size && Abs(m - exact) <= reach - size
  }

  // ---- Arithmetic ----

  lemma ProductNonNegative(a: real, b: real)
    requires a >= 0.0 && b >= 0.0
    ensures a * b >= 0.0
  {
  }

  lemma ProductMonotone(a: real, b: real, c: real)
    requires a <= b && c >= 0.0
    ensures a * c <= b * c
  {
    ProductNonNegative(b - a, c);
    assert b * c == a * c + (b - a) * c;
  }

  lemma AbsProduct(a: real, b: real)
    ensures Abs(Mul(a, b)) == Mul(Abs(a), Abs(b))
  {
    ProductNonNegative(Abs(a), Abs(b));
    if a < 0.0 {
      assert (-a) * b == -(a * b);
      assert (-a) * (-b) == a * b;
    } else {
      assert a * (-b) == -(a * b);
    }
  }

  /** Two factors bounded separately bound the product. */
  lemma ProductBound(a: real, b: real, A: real, B: real)
    requires 0.0 <= a <= A && 0.0 <= b <= B
    ensures a * b <= A * B
  {
    ProductMonotone(a, A, b);
    ProductMonotone(b, B, A);
    assert A * b == b * A && B * A == A * B;
  }

  /** One more factor within [1/rho, rho]. */
  lemma NearStep(m: real, m': real, exact: real, size: real, reach: real, rho: real)
    requires Near(m, exact, size, reach) && rho >= 1.0
    requires Abs(m' - m) <= Mul(rho - 1.0, Abs(m))
    ensures Near(m', exact, size, Mul(rho, reach))
  {
    NearParts(m, exact, size, reach);
    StepError(Abs(m' - m), Abs(m), reach, rho);
    hide *;
    AbsTriangle(m', m, exact);
    NearFromParts(m', exact, size, Mul(rho, reach));
  }

  lemma StepError(gap: real, m: real, reach: real, rho: real)
    requires gap <= Mul(rho - 1.0, m) && 0.0 <= m <= reach && rho >= 1.0
    ensures gap <= Mul(rho, reach) - reach
  {
    ProductBound(rho - 1.0, m, rho - 1.0, reach);
    assert (rho - 1.0) * reach == rho * reach - reach;
  }

  lemma AbsTriangle(a: real, b: real, c: real)
    ensures 0.0 <= Abs(a - c) <= Abs(a - b) + Abs(b - c)
  {
  }

  lemma NearParts(m: real, exact: real, size: real, reach: real)
    requires Near(m, exact, size, reach)
    ensures 0.0 <= Abs(exact) <= size && 0.0 <= Abs(m - exact) <= reach - size && 0.0 <= Abs(m) <= reach
  {
  }

  lemma NearFromParts(m: real, exact: real, size: real, reach: real)
    requires Abs(exact) <= size && Abs(m - exact) <= reach - size
    ensures Near(m, exact, size, reach)
  {
  }

  lemma NearCombine(a: real, b: real, x: real, y: real, A: real, B: real, Ra: real, Rb: real, sign: Sign)
    requires Near(a, x, A, Ra) && Near(b, y, B, Rb)
    ensures Near(Combine(a, b, sign), Combine(x, y, sign), A + B, Ra + Rb)
  {
  }

  lemma NearProduct(a: real, b: real, x: real, y: real, A: real, B: real, Ra: real, Rb: real)
    requires Near(a, x, A, Ra) && Near(b, y, B, Rb)
    ensures Near(Mul(a, b), Mul(x, y), Mul(A, B), Mul(Ra, Rb))
  {
    NearParts(a, x, A, Ra);
    NearParts(b, y, B, Rb);
    hide *;
    ProductSize(x, y, A, B);
    SplitError(a, b, x, y);
    TwoProducts(Abs(a - x), Abs(b), Abs(x), Abs(b - y), A, B, Ra, Rb);
    NearFromParts(Mul(a, b), Mul(x, y), Mul(A, B), Mul(Ra, Rb));
  }

  lemma ProductSize(x: real, y: real, A: real, B: real)
    requires 0.0 <= Abs(x) <= A && 0.0 <= Abs(y) <= B
    ensures Abs(Mul(x, y)) <= Mul(A, B)
  {
    AbsProduct(x, y);
    ProductBound(Abs(x), Abs(y), A, B);
  }

  lemma TwoProducts(ea: real, b: real, x: real, eb: real, A: real, B: real, Ra: real, Rb: real)
    requires 0.0 <= ea <= Ra - A && 0.0 <= b <= Rb && 0.0 <= x <= A && 0.0 <= eb <= Rb - B
    ensures Mul(ea, b) + Mul(x, eb) <= Mul(Ra, Rb) - Mul(A, B)
  {
    ProductBound(ea, b, Ra - A, Rb);
    ProductBound(x, eb, A, Rb - B);
    assert (Ra - A) * Rb + A * (Rb - B) == Ra * Rb - A * B;
  }

  lemma SplitError(a: real, b: real, x: real, y: real)
    ensures Abs(Mul(a, b) - Mul(x, y)) <= Mul(Abs(a - x), Abs(b)) + Mul(Abs(x), Abs(b - y))
  {
    AbsProduct(a - x, b);
    AbsProduct(x, b - y);
    assert a * b - x * y == (a - x) * b + x * (b - y);
    assert Mul(a, b) - Mul(x, y) == Mul(a - x, b) + Mul(x, b - y);
    hide Mul;
  }

  /** A factor within [1/rho, rho] moves a number by at most (rho - 1) of itself. */
  lemma RatioStep(m: real, f: real, m': real, rho: real)
    requires m' == Mul(m, f) && f > 0.0 && f <= rho && 1.0 <= Mul(rho, f) && rho >= 1.0
    ensures Abs(m' - m) <= Mul(rho - 1.0, Abs(m))
  {
    AboveReflection(rho, f);
    var g := f - 1.0;
    assert Mul(m, g) == m' - m;
    AbsProduct(m, g);
    assert 0.0 <= Abs(g) <= rho - 1.0;
    AbsProduct(m, 1.0);
    ProductBound(Abs(m), Abs(g), Abs(m), rho - 1.0);
    assert Mul(Abs(m), rho - 1.0) == Mul(rho - 1.0, Abs(m));
    hide Mul;
  }

  lemma AboveReflection(rho: real, f: real)
    requires rho >= 1.0 && 1.0 <= rho * f
    ensures f >= 2.0 - rho
  {
    var x, square := f - (2.0 - rho), (rho - 1.0) * (rho - 1.0);
    ProductNonNegative(rho - 1.0, rho - 1.0);
    assert rho * x == rho * f - 2.0 * rho + rho * rho;
    assert square == 1.0 - 2.0 * rho + rho * rho;
    NonNegativeFactor(rho, x);
  }

  lemma NonNegativeFactor(a: real, b: real)
    requires a > 0.0 && a * b >= 0.0
    ensures b >= 0.0
  {
    Cancel(b, a);
  }

  // ---- Alignment and rescale under FIXEDAUTO ----

  /** Dividing value and scale by different numbers multiplies the message by their ratio. */
  lemma RescaleRatio(v: real, q: real, d: real, dd: real)
    requires q > 0.0 && d > 0.0 && dd > 0.0 && dd == d * d
    ensures v / q / d == Mul(v / dd, d / q)
  {
    var m, u, f := v / dd, v / q / d, d / q;
    Cancel(v, dd);
    Cancel(v / q, d);
    Cancel(v, q);
    Cancel(d, q);
    RatioCore(m, u, f, q, d, v);
  }

  lemma RatioCore(m: real, u: real, f: real, q: real, d: real, v: real)
    requires q > 0.0 && d > 0.0 && m * (d * d) == v && u * d * q == v && f * q == d
    ensures u == Mul(m, f)
  {
    var dq := d * q;
    PositiveProduct(d, q, dq);
    assert u * dq == v;
    assert (m * f) * dq == m * d * (f * q);
    assert (m * f) * dq == v;
    SameAfterDividing(u, m * f, dq);
  }

  lemma SameAfterDividing(a: real, b: real, d: real)
    requires d != 0.0 && a * d == b * d
    ensures a == b
  {
    Cancel(a, d);
    Cancel(b, d);
  }

  lemma RaiseRatio(v: real, q: real, d: real, dd: real)
    requires d > 0.0 && dd > 0.0 && dd == d * d
    ensures v * q / dd == Mul(v / d, q / d)
  {
    var m, g := v / d, q / d;
    Cancel(v, d);
    Cancel(q, d);
    assert v * q == (m * g) * dd by { RaiseCore(m, g, d); }
    Cancel(m * g, dd);
  }

  lemma RaiseCore(m: real, g: real, d: real)
    ensures (m * d) * (g * d) == (m * g) * (d * d)
  {
  }

  lemma QuotientBounds(a: real, b: real, rho: real)
    requires a > 0.0 && b > 0.0 && a <= Mul(rho, b) && b <= Mul(rho, a)
    ensures a / b > 0.0 && a / b <= rho && 1.0 <= Mul(rho, a / b)
  {
    var f := a / b;
    Cancel(a, b);
    assert f * b == a;
    if f <= 0.0 {
      ProductMonotone(f, 0.0, b);
    }
    if f > rho {
      PositiveProduct(f - rho, b, (f - rho) * b);
    }
    var x := rho * f - 1.0;
    assert b * x == rho * a - b;
    NonNegativeFactor(b, x);
  }

  /** `t` is `s` rescaled: value over `q`, scale over the booked constant. */
  lemma DownStep(s: State, t: State, q: real, rho: real)
    requires q > 0.0 && t.factor > 0.0 && s.factor > 0.0 && rho >= 1.0
    requires s.factor == Mul(t.factor, t.factor) && t.value == s.value / q
    requires q <= Mul(rho, t.factor) && t.factor <= Mul(rho, q)
    ensures Abs(t.Message() - s.Message()) <= Mul(rho - 1.0, Abs(s.Message()))
  {
    RescaleRatio(s.value, q, t.factor, s.factor);
    QuotientBounds(t.factor, q, rho);
    RatioStep(s.Message(), t.factor / q, t.Message(), rho);
  }

  /** `t` is `s` raised: value times `q`, scale times the booked constant. */
  lemma UpStep(s: State, t: State, q: real, rho: real)
    requires q > 0.0 && t.factor > 0.0 && s.factor > 0.0 && rho >= 1.0
    requires t.factor == Mul(s.factor, s.factor) && t.value == s.value * q
    requires q <= Mul(rho, s.factor) && s.factor <= Mul(rho, q)
    ensures Abs(t.Message() - s.Message()) <= Mul(rho - 1.0, Abs(s.Message()))
  {
    RaiseRatio(s.value, q, s.factor, t.factor);
    QuotientBounds(q, s.factor, rho);
    RatioStep(s.Message(), q / s.factor, t.Message(), rho);
  }

  lemma NoStep(s: State, t: State, rho: real)
    requires rho >= 1.0 && s.factor == t.factor > 0.0 && s.value == t.value
    ensures Abs(t.Message() - s.Message()) <= Mul(rho - 1.0, Abs(s.Message()))
  {
    ProductNonNegative(rho - 1.0, Abs(s.Message()));
  }

  lemma FixedCanonical(p: Parameters, level: int, degree: int)
    requires p.Valid() && p.technique == FIXEDAUTO && 0 <= level <= p.L
    ensures var d := p.scalingFactorReal[0]; p.Canonical(level, degree) == if degree == 1 then d else Mul(d, d)
  {
  }

  lemma PrimeNear(p: Parameters, level: int, rho: real)
    requires p.Valid() && PrimesNear(p, rho) && 0 <= level <= p.L
    ensures p.prime[level] as real > 0.0
    ensures p.prime[level] as real <= Mul(rho, p.scalingFactorReal[0])
    ensures p.scalingFactorReal[0] <= Mul(rho, p.prime[level] as real)
  {
  }

  lemma FixedAligned(p: Parameters, s: State, degree: int, level: int, rho: real)
    requires p.Valid() && PrimesNear(p, rho) && Wf(p, s) && 1 <= degree <= 2 && 0 <= level <= p.L
    ensures rho >= 1.0 && 0 <= s.level <= p.L < |p.prime| && 1 <= s.degree <= 2
    ensures var t := Aligned(p, s, degree, level);
      && s.factor > 0.0 && t.factor > 0.0 && |p.scalingFactorReal| == p.L + 1
      && (s.degree == degree ==> t.factor == s.factor && t.value == s.value)
      && (s.degree == 2 && degree == 1 ==>
            t.factor == p.scalingFactorReal[0] && s.factor == Mul(t.factor, t.factor) && t.value == s.value / p.prime[s.level] as real)
      && (s.degree == 1 && degree == 2 ==>
            s.factor == p.scalingFactorReal[0] && t.factor == Mul(s.factor, s.factor) && t.value == s.value * p.prime[level] as real)
  {
    FixedCanonical(p, s.level, s.degree);
    FixedCanonical(p, level, degree);
    hide Mul, Parameters.Canonical;
  }

  lemma AlignedDrift(p: Parameters, s: State, degree: int, level: int, rho: real)
    requires p.Valid() && PrimesNear(p, rho) && Wf(p, s) && 1 <= degree <= 2 && 0 <= level <= p.L
    ensures Abs(Aligned(p, s, degree, level).Message() - s.Message()) <= Mul(rho - 1.0, Abs(s.Message()))
  {
    FixedAligned(p, s, degree, level, rho);
    hide *;
    var top := if s.degree == 2 then s.level else level;
    PrimeNear(p, top, rho);
    var t, q := Aligned(p, s, degree, level), p.prime[top] as real;
    if s.degree == degree {
      NoStep(s, t, rho);
    } else if s.degree == 2 {
      DownStep(s, t, q, rho);
    } else {
      UpStep(s, t, q, rho);
    }
  }

  lemma RescaledDrift(p: Parameters, s: State, rho: real)
    requires p.Valid() && PrimesNear(p, rho) && Wf(p, s) && s.degree == 2
    ensures Rescaled(p, s).factor > 0.0
    ensures Abs(Rescaled(p, s).Message() - s.Message()) <= Mul(rho - 1.0, Abs(s.Message()))
  {
    RescaledFactor(p, s);
    AlignedDrift(p, s, 1, s.level - 1, rho);
    hide Mul, Abs, Parameters.Canonical;
  }

  lemma MultOperandDrift(p: Parameters, s: State, degree: int, level: int, rho: real)
    requires p.Valid() && PrimesNear(p, rho) && Wf(p, s) && 1 <= degree <= 2 && degree - 1 <= level <= p.L
    ensures Wf(p, MultOperand(p, s, degree, level))
    ensures var m, t := MultOperand(p, s, degree, level).Message(), Aligned(p, s, degree, level).Message();
            Abs(m - t) <= Mul(rho - 1.0, Abs(t))
  {
    MultOperandReady(p, s, degree, level);
    var t := Aligned(p, s, degree, level);
    if degree == 2 {
      RescaledDrift(p, t, rho);
    } else {
      NoStep(t, t, rho);
    }
    hide Mul, Abs, Parameters.Canonical, AlignedValue;
  }

  // ---- Operations and circuits ----

  lemma NearAligned(p: Parameters, s: State, degree: int, level: int, rho: real, exact: real, size: real, reach: real)
    requires p.Valid() && PrimesNear(p, rho) && Wf(p, s) && 1 <= degree <= 2 && 0 <= level <= p.L
    requires Near(s.Message(), exact, size, reach)
    ensures Near(Aligned(p, s, degree, level).Message(), exact, size, Mul(rho, reach))
  {
    AlignedDrift(p, s, degree, level, rho);
    hide AlignedValue, Mul, Abs, Near, State.Message;
    NearStep(s.Message(), Aligned(p, s, degree, level).Message(), exact, size, reach, rho);
  }

  lemma NearMultOperand(p: Parameters, s: State, degree: int, level: int, rho: real, exact: real, size: real, reach: real)
    requires p.Valid() && PrimesNear(p, rho) && Wf(p, s) && 1 <= degree <= 2 && degree - 1 <= level <= p.L
    requires Near(s.Message(), exact, size, reach)
    ensures Wf(p, MultOperand(p, s, degree, level))
    ensures Near(MultOperand(p, s, degree, level).Message(), exact, size, Mul(rho, Mul(rho, reach)))
  {
    NearAligned(p, s, degree, level, rho, exact, size, reach);
    MultOperandDrift(p, s, degree, level, rho);
    hide AlignedValue, Mul, Abs, Near, State.Message, MultOperand;
    NearStep(Aligned(p, s, degree, level).Message(), MultOperand(p, s, degree, level).Message(),
             exact, size, Mul(rho, reach), rho);
  }

  lemma NearSum(p: Parameters, a: State, b: State, sign: Sign, rho: real,
                x: real, y: real, A: real, B: real, Ra: real, Rb: real)
    requires p.Valid() && PrimesNear(p, rho) && Wf(p, a) && Wf(p, b)
    requires Near(a.Message(), x, A, Ra) && Near(b.Message(), y, B, Rb)
    ensures Wf(p, AddResult(p, a, b, sign))
    ensures Near(AddResult(p, a, b, sign).Message(), Combine(x, y, sign), A + B, Mul(rho, Ra) + Mul(rho, Rb))
  {
    var d, l := MeetDegree(a, b), MeetLevel(a, b);
    SumBudget(p, a, b, sign);
    NearAligned(p, a, d, l, rho, x, A, Ra);
    NearAligned(p, b, d, l, rho, y, B, Rb);
    var s, t := Aligned(p, a, d, l), Aligned(p, b, d, l);
    CombineOverScale(s.value, t.value, p.Canonical(l, d), sign);
    NearCombine(s.Message(), t.Message(), x, y, A, B, Mul(rho, Ra), Mul(rho, Rb), sign);
    hide Mul, Abs, Near, AlignedValue, Combine;
  }

  lemma NearTimes(p: Parameters, a: State, b: State, rho: real,
                  x: real, y: real, A: real, B: real, Ra: real, Rb: real)
    requires p.Valid() && PrimesNear(p, rho) && Wf(p, a) && Wf(p, b)
    requires Near(a.Message(), x, A, Ra) && Near(b.Message(), y, B, Rb)
    ensures MultResult(p, a, b).factor > 0.0
    ensures Near(MultResult(p, a, b).Message(), Mul(x, y), Mul(A, B),
                 Mul(Mul(rho, Mul(rho, Ra)), Mul(rho, Mul(rho, Rb))))
  {
    var d, l := MeetDegree(a, b), MeetLevel(a, b);
    MultMeetingPoint(p, a, b);
    NearMultOperand(p, a, d, l, rho, x, A, Ra);
    NearMultOperand(p, b, d, l, rho, y, B, Rb);
    var s, t := MultOperand(p, a, d, l), MultOperand(p, b, d, l);
    hide *;
    ProductOverScales(s, t);
    NearProduct(s.Message(), t.Message(), x, y, A, B, Mul(rho, Mul(rho, Ra)), Mul(rho, Mul(rho, Rb)));
  }

  /** Main result on messages under FIXEDAUTO: a circuit that evaluates carries its exact value up
      to the gap between the inflated and the plain magnitude. */
  lemma {:induction false} CircuitDrift(p: Parameters, e: Expr, env: seq<State>, rho: real)
    requires p.Valid() && PrimesNear(p, rho) && Closed(p, e, env)
    requires Eval(p, e, env).Some?
    ensures Near(Eval(p, e, env).value.Message(), Plain(p, e, env), Magnitude(p, e, env), Reach(p, e, env, rho))
  {
    hide AddResult, MultResult, State.Message, Near, Parameters.Canonical, Parameters.Valid, Mul, Abs, PrimesNear;
    if e.Input? {
      NearSelf(env[e.index].Message());
    }
    hide Wf;
    match e
    case Input(i) =>
    case Squared(a) =>
      CircuitDrift(p, a, env, rho);
      var s := Eval(p, a, env).value;
      NearTimes(p, s, s, rho, Plain(p, a, env), Plain(p, a, env), Magnitude(p, a, env), Magnitude(p, a, env),
                Reach(p, a, env, rho), Reach(p, a, env, rho));
    case Sum(l, r) =>
      CircuitDrift(p, l, env, rho);
      CircuitDrift(p, r, env, rho);
      NearSum(p, Eval(p, l, env).value, Eval(p, r, env).value, Plus, rho, Plain(p, l, env), Plain(p, r, env),
              Magnitude(p, l, env), Magnitude(p, r, env), Reach(p, l, env, rho), Reach(p, r, env, rho));
    case Difference(l, r) =>
      CircuitDrift(p, l, env, rho);
      CircuitDrift(p, r, env, rho);
      NearSum(p, Eval(p, l, env).value, Eval(p, r, env).value, Minus, rho, Plain(p, l, env), Plain(p, r, env),
              Magnitude(p, l, env), Magnitude(p, r, env), Reach(p, l, env, rho), Reach(p, r, env, rho));
    case Times(l, r) =>
      CircuitDrift(p, l, env, rho);
      CircuitDrift(p, r, env, rho);
      NearTimes(p, Eval(p, l, env).value, Eval(p, r, env).value, rho, Plain(p, l, env), Plain(p, r, env),
                Magnitude(p, l, env), Magnitude(p, r, env), Reach(p, l, env, rho), Reach(p, r, env, rho));
  }

  lemma NearSelf(m: real)
    ensures Near(m, m, Abs(m), Abs(m))
  {
  }

  /** With exact primes there is no gap: the reach is the magnitude, so the message is exact. */
  lemma {:induction false} ExactPrimesNoDrift(p: Parameters, e: Expr, env: seq<State>)
    requires p.Valid() && Closed(p, e, env)
    ensures Reach(p, e, env, 1.0) == Magnitude(p, e, env)
  {
    match e
    case Input(_) =>
    case Squared(a) => ExactPrimesNoDrift(p, a, env);
    case Sum(l, r) => ExactPrimesNoDrift(p, l, env); ExactPrimesNoDrift(p, r, env);
    case Difference(l, r) => ExactPrimesNoDrift(p, l, env); ExactPrimesNoDrift(p, r, env);
    case Times(l, r) => ExactPrimesNoDrift(p, l, env); ExactPrimesNoDrift(p, r, env);
  }
}
