/** The level and scale bookkeeping of CKKS ciphertexts: the parameter tables, the abstract state
    of one ciphertext, and the closed form of operand alignment.

    A ciphertext is (level, degree, scale, exact real value): `value` is what decryption would
    return before dividing by the scale, so the message it carries is `value / factor`. */
module ScaleLadder {
  import opened Extrema

  datatype Technique = FIXEDAUTO | FLEXIBLEAUTO | FLEXIBLEAUTOEXT

  datatype Parameters = Parameters(
    technique: Technique,
    L: nat,
    scalingFactorReal: seq<real>,
    scalingFactorRealBig: seq<real>,
    modReduceFactor: seq<real>,
    prime: seq<nat>)
  {
    /** The tables as OpenFHE fills them, over exact reals. Under FIXEDAUTO the scale and the
        mod-reduce factor are one constant; under the FLEXIBLE techniques a rescale divides the
        scale by the tower's own prime, and the degree-2 scale of a level is also the degree-1
        scale of the level below times that prime. */
    ghost predicate Valid() {
      && |scalingFactorReal| == |scalingFactorRealBig| == |modReduceFactor| == |prime| == L + 1
      && (forall l :: 0 <= l <= L ==> scalingFactorReal[l] > 0.0 && modReduceFactor[l] > 0.0 && prime[l] > 1)
      && if technique == FIXEDAUTO then
           forall l :: 0 <= l <= L ==> scalingFactorReal[l] == modReduceFactor[l] == scalingFactorReal[0]
         else
           && (forall l :: 0 <= l <= L ==> modReduceFactor[l] == prime[l] as real)
           && (forall l :: 1 <= l <= L ==>
                 scalingFactorRealBig[l] == scalingFactorReal[l] * scalingFactorReal[l]
                                         == scalingFactorReal[l - 1] * modReduceFactor[l])
    }

    /** The scale a ciphertext of this level and degree is expected to carry. */
    function Canonical(level: int, degree: int): (f: real)
      requires Valid() && 0 <= level <= L
      ensures f > 0.0
    {
      var sf := scalingFactorReal[level];
      PositiveProduct(sf, sf, sf * sf);
      if degree == 1 then sf else sf * sf
    }
  }

  lemma PositiveProduct(a: real, b: real, ab: real)
    requires a > 0.0 && b > 0.0 && ab == a * b
    ensures ab > 0.0
  {
  }

  datatype State = State(level: int, degree: int, factor: real, value: real, slots: int) {
    /** How many multiplications the ciphertext still supports. */
    function Budget(): int { level - (degree - 1) }

    function Message(): real
      requires factor != 0.0
    {
      value / factor
    }
  }

  /** A ciphertext the library can hold: on the ladder, degree 1 or 2, at the canonical scale. */
  ghost predicate Wf(p: Parameters, s: State)
    requires p.Valid()
  {
    && 0 <= s.level <= p.L
    && 1 <= s.degree <= 2
    && s.Budget() >= 0
    && s.factor == p.Canonical(s.level, s.degree)
  }

  /** Alignment is possible exactly when the receiver is not below the target. */
  predicate CanAdjust(s: State, degree: int, level: int) {
    s.level > level || (s.level == level && s.degree <= degree)
  }

  /** The value an alignment leaves. FLEXIBLE keeps the message; FIXEDAUTO rescales a degree-2 value
      by its top prime, or multiplies a degree-1 value by the target's last prime. */
  function AlignedValue(p: Parameters, s: State, degree: int, level: int): real
    requires p.Valid() && 0 <= s.level <= p.L && 0 <= level <= p.L && s.factor > 0.0
  {
    if p.technique != FIXEDAUTO then s.value / s.factor * p.Canonical(level, degree)
    else if s.degree == degree then s.value
    else if s.degree == 2 then s.value / p.prime[s.level] as real
    else s.value * p.prime[level] as real
  }

  function Aligned(p: Parameters, s: State, degree: int, level: int): State
    requires p.Valid() && 0 <= s.level <= p.L && 0 <= level <= p.L && s.factor > 0.0
  {
    State(level, degree, p.Canonical(level, degree), AlignedValue(p, s, degree, level), s.slots)
  }

  /** One rescale. */
  function Rescaled(p: Parameters, s: State): State
    requires p.Valid() && 0 <= s.level <= p.L
    ensures Rescaled(p, s).level == s.level - 1 && Rescaled(p, s).degree == s.degree - 1 && Rescaled(p, s).slots == s.slots
  {
    State(s.level - 1, s.degree - 1, s.factor / p.modReduceFactor[s.level],
          s.value / p.prime[s.level] as real, s.slots)
  }

  /** A product with a scalar, encoded at the current level's scale. */
  function ScalarMultiplied(p: Parameters, s: State, c: real): State
    requires p.Valid() && 0 <= s.level <= p.L
    ensures var t := ScalarMultiplied(p, s, c); t.level == s.level && t.degree == s.degree + 1 && t.slots == s.slots
  {
    State(s.level, s.degree + 1, s.factor * p.scalingFactorReal[s.level],
          s.value * (c * p.scalingFactorReal[s.level]), s.slots)
  }

  /** A degree-1 ciphertext multiplied by the last prime of another level. */
  function Raised(p: Parameters, s: State, target: int): State
    requires p.Valid() && 0 <= s.level <= p.L && 0 <= target <= p.L
  {
    State(s.level, s.degree + 1, Mul(s.factor, p.scalingFactorReal[s.level]), Mul(s.value, p.prime[target] as real), s.slots)
  }

  /** Multiplication under a name, so that proofs can treat products as plain terms. */
  function Mul(a: real, b: real): real { a * b }

  /** Where two operands meet: the smaller level, with the degree of the operand found there. */
  function MeetLevel(a: State, b: State): int { Min(a.level, b.level) }

  function MeetDegree(a: State, b: State): int {
    if a.level < b.level then a.degree
    else if b.level < a.level then b.degree
    else Max(a.degree, b.degree)
  }

  datatype Sign = Plus | Minus

  function Combine(x: real, y: real, sign: Sign): real {
    if sign == Plus then x + y else x - y
  }

  /** A sum or difference. It has as many slots as the operand with more of them. */
  function AddResult(p: Parameters, a: State, b: State, sign: Sign): (r: State)
    requires p.Valid() && Wf(p, a) && Wf(p, b)
    ensures r.slots >= a.slots && r.slots >= b.slots && (r.slots == a.slots || r.slots == b.slots)
  {
    var level, degree := MeetLevel(a, b), MeetDegree(a, b);
    State(level, degree, p.Canonical(level, degree),
          Combine(Aligned(p, a, degree, level).value, Aligned(p, b, degree, level).value, sign),
          Max(a.slots, b.slots))
  }

  /** An operand as the product kernel sees it: aligned, then rescaled when it has degree 2. */
  function MultOperand(p: Parameters, s: State, degree: int, level: int): State
    requires p.Valid() && 0 <= s.level <= p.L && 0 <= level <= p.L && s.factor > 0.0
  {
    var t := Aligned(p, s, degree, level);
    if degree == 2 then Rescaled(p, t) else t
  }

  function Product(a: State, b: State): (r: State)
    ensures r.slots >= a.slots && r.slots >= b.slots && (r.slots == a.slots || r.slots == b.slots)
  {
    State(a.level, a.degree + b.degree, a.factor * b.factor, a.value * b.value, Max(a.slots, b.slots))
  }

  function MultResult(p: Parameters, a: State, b: State): (r: State)
    requires p.Valid() && Wf(p, a) && Wf(p, b)
    ensures r.slots >= a.slots && r.slots >= b.slots && (r.slots == a.slots || r.slots == b.slots)
  {
    var level, degree := MeetLevel(a, b), MeetDegree(a, b);
    Product(MultOperand(p, a, degree, level), MultOperand(p, b, degree, level))
  }

  /** The scalar a FLEXIBLE alignment multiplies by: one scale over another, encoded at `scf`. */
  function ScaleChange(scf2: real, scf1: real, scf: real): real
    requires scf1 != 0.0 && scf != 0.0
  {
    scf2 / scf1 / scf
  }

  /** The same with the prime folded in that the following rescale divides out. */
  function ScaleChangeTimesPrime(scf2: real, scf1: real, q1: real, scf: real): real
    requires scf1 != 0.0 && scf != 0.0
  {
    scf2 / scf1 * q1 / scf
  }

  // ---- Facts about the ladder ----

  lemma Cancel(a: real, b: real)
    requires b != 0.0
    ensures a / b * b == a && a * b / b == a
  {
  }

  lemma TimesThenDivide(m: real, a: real, q: real)
    requires q != 0.0
    ensures m * (a * q) / q == m * a
  {
    assert m * (a * q) == (m * a) * q;
    Cancel(m * a, q);
  }

  lemma FlexibleBig(p: Parameters, level: int)
    requires p.Valid() && p.technique != FIXEDAUTO && 1 <= level <= p.L
    ensures p.Canonical(level, 2) == p.scalingFactorRealBig[level]
  {
  }

  /** Multiplying by a scalar multiplies the message by it. */
  lemma ScalarMultipliedMessage(p: Parameters, s: State, c: real)
    requires p.Valid() && 0 <= s.level <= p.L
    ensures var t := ScalarMultiplied(p, s, c);
      && (s.factor > 0.0 ==> t.factor > 0.0 && t.Message() == Mul(c, s.Message()))
      && (s.factor == p.Canonical(s.level, 1) ==> t.factor == p.Canonical(s.level, 2))
  {
    var sf := p.scalingFactorReal[s.level];
    if s.factor > 0.0 {
      PositiveProduct(s.factor, sf, s.factor * sf);
      ScaledQuotient(s.value, s.factor, c, sf);
    }
    hide Parameters.Valid;
  }

  lemma ScaledQuotient(v: real, f: real, c: real, sf: real)
    requires f > 0.0 && sf > 0.0 && f * sf > 0.0
    ensures v * (c * sf) / (f * sf) == c * (v / f)
  {
    var m := v / f;
    assert v == m * f;
    assert v * (c * sf) == (c * m) * (f * sf);
    Cancel(c * m, f * sf);
  }

  /** FLEXIBLE: a rescale keeps the message. */
  lemma RescaledMessage(p: Parameters, s: State)
    requires p.Valid() && p.technique != FIXEDAUTO && Wf(p, s) && s.degree == 2
    ensures Rescaled(p, s).factor > 0.0 && Rescaled(p, s).Message() == s.Message()
  {
    RescaledIsAligned(p, s);
    Cancel(s.value / s.factor, p.Canonical(s.level - 1, 1));
    hide Parameters.Valid, Wf, Rescaled;
  }

  lemma RaisedFields(p: Parameters, s: State, target: int)
    requires p.Valid() && 0 <= s.level <= p.L && 0 <= target <= p.L
    ensures |p.scalingFactorReal| == |p.prime| == p.L + 1
    ensures Raised(p, s, target) == State(s.level, s.degree + 1, Mul(s.factor, p.scalingFactorReal[s.level]), Mul(s.value, p.prime[target] as real), s.slots)
  {
    hide Parameters.Canonical;
  }

  lemma ScalarMultipliedFields(p: Parameters, s: State, c: real)
    requires p.Valid() && 0 <= s.level <= p.L
    ensures |p.scalingFactorReal| == p.L + 1
    ensures ScalarMultiplied(p, s, c)
         == State(s.level, s.degree + 1, s.factor * p.scalingFactorReal[s.level], s.value * (c * p.scalingFactorReal[s.level]), s.slots)
  {
    hide Parameters.Canonical;
  }

  /** FIXEDAUTO: raising a degree-1 ciphertext to a target at or below it and rescaling there gives its
      value back, at the canonical scale one level further down. */
  lemma RaisedIsUndone(p: Parameters, s: State, target: int)
    requires p.Valid() && p.technique == FIXEDAUTO && Wf(p, s) && s.degree == 1 && 1 <= target <= s.level
    ensures Raised(p, s, target).(level := target) == Aligned(p, s, 2, target)
    ensures Rescaled(p, Aligned(p, s, 2, target)) == State(target - 1, 1, p.Canonical(target - 1, 1), s.value, s.slots)
  {
    Cancel(s.value, p.prime[target] as real);
    var t := Aligned(p, s, 2, target);
    assert t.factor == p.Canonical(t.level, 2);
    RescaledFactor(p, t);
  }

  /** The maneuver of the degree-2 branches lands one level down, at degree 2 on the canonical scale,
      with the value its message asks for at `scf2`. */
  lemma TopManeuver(p: Parameters, s: State, scf2: real)
    requires p.Valid() && p.technique != FIXEDAUTO && Wf(p, s) && s.degree == 2 && s.level >= 2
    ensures s.factor > 0.0 && p.modReduceFactor[s.level] > 0.0 && p.scalingFactorReal[s.level] > 0.0
    ensures |p.modReduceFactor| == |p.scalingFactorReal| == |p.scalingFactorRealBig| == p.L + 1 && s.level <= p.L
    ensures var c := ScaleChangeTimesPrime(scf2, s.factor, p.modReduceFactor[s.level], p.scalingFactorReal[s.level]);
      var t := ScalarMultiplied(p, s, c);
      var u := Rescaled(p, t.(factor := Mul(p.scalingFactorRealBig[s.level - 1], p.modReduceFactor[s.level])));
      && t.level == s.level && u.level == s.level - 1 && u.degree == 2 && u.slots == s.slots
      && u.value == s.value / s.factor * scf2 && u.factor == p.Canonical(u.level, 2)
  {
    var l := s.level;
    var c := ScaleChangeTimesPrime(scf2, s.factor, p.modReduceFactor[l], p.scalingFactorReal[l]);
    var bridge := p.scalingFactorRealBig[l - 1] * p.modReduceFactor[l];
    ChangeScaleTimesPrime(p, s, scf2, c, bridge);
    FlexibleBig(p, l - 1);
    Cancel(p.scalingFactorRealBig[l - 1], p.modReduceFactor[l]);
    hide ScalarMultiplied, ScaleChangeTimesPrime, Parameters.Canonical;
  }

  /** A degree-2 ciphertext at the canonical scale rescales to degree 1 at the canonical scale. */
  lemma RescaleStaysCanonical(p: Parameters, level: int)
    requires p.Valid() && 1 <= level <= p.L
    ensures p.Canonical(level, 2) / p.modReduceFactor[level] == p.Canonical(level - 1, 1)
  {
    hide *;
    CanonicalProduct(p, level);
    Quotient(p.Canonical(level, 2), p.Canonical(level - 1, 1), p.modReduceFactor[level]);
  }

  lemma Quotient(product: real, a: real, b: real)
    requires b != 0.0 && product == a * b
    ensures product / b == a
  {
  }

  lemma CanonicalProduct(p: Parameters, level: int)
    requires p.Valid() && 1 <= level <= p.L
    ensures level < |p.scalingFactorReal| == |p.modReduceFactor| && p.modReduceFactor[level] != 0.0
    ensures p.Canonical(level - 1, 1) == p.scalingFactorReal[level - 1]
    ensures p.Canonical(level, 2) == p.scalingFactorReal[level - 1] * p.modReduceFactor[level]
  {
    if p.technique == FIXEDAUTO {
      assert p.scalingFactorReal[level] == p.scalingFactorReal[level - 1] == p.modReduceFactor[level];
    }
  }

  lemma RescaledFactor(p: Parameters, s: State)
    requires p.Valid() && 1 <= s.level <= p.L && s.factor == p.Canonical(s.level, 2)
    ensures Rescaled(p, s).factor == p.Canonical(s.level - 1, 1)
  {
    RescaleStaysCanonical(p, s.level);
  }

  /** Moving to the degree-2 scale of a level and rescaling there ends at the scale below. */
  lemma ScaleThenRescale(p: Parameters, m: real, level: int)
    requires p.Valid() && p.technique != FIXEDAUTO && 1 <= level <= p.L
    ensures m * p.Canonical(level, 2) / p.prime[level] as real == m * p.Canonical(level - 1, 1)
  {
    FlexibleBig(p, level);
    assert p.Canonical(level, 2) == p.scalingFactorReal[level - 1] * p.modReduceFactor[level];
    TimesThenDivide(m, p.scalingFactorReal[level - 1], p.prime[level] as real);
  }

  /** Under FLEXIBLE, rescaling a degree-2 ciphertext is aligning it one level down. */
  lemma RescaledIsAligned(p: Parameters, s: State)
    requires p.Valid() && p.technique != FIXEDAUTO && Wf(p, s) && s.degree == 2
    ensures Rescaled(p, s) == Aligned(p, s, 1, s.level - 1)
  {
    RescaledFactor(p, s);
    ScaleThenRescale(p, s.value / s.factor, s.level);
    Cancel(s.value, s.factor);
    assert s.value / s.factor * p.Canonical(s.level, 2) == s.value;
    assert Rescaled(p, s).value == AlignedValue(p, s, 1, s.level - 1);
  }

  /** Aligning where the ciphertext already is changes nothing. */
  lemma AlignedInPlace(p: Parameters, s: State)
    requires p.Valid() && Wf(p, s)
    ensures Aligned(p, s, s.degree, s.level) == s
  {
    Cancel(s.value, s.factor);
  }

  // ---- What the FLEXIBLE branches leave ----

  /** Multiplying by the ratio of two scales swaps one for the other. */
  lemma ChangeScale(p: Parameters, s: State, scf2: real, c: real)
    requires p.Valid() && 0 <= s.level <= p.L && s.factor > 0.0
    requires c == ScaleChange(scf2, s.factor, p.scalingFactorReal[s.level])
    ensures ScalarMultiplied(p, s, c).value == s.value / s.factor * scf2
    ensures ScalarMultiplied(p, s, c).factor * c == scf2
  {
    var scf, r := p.scalingFactorReal[s.level], scf2 / s.factor;
    Cancel(r, scf);
    Cancel(scf2, s.factor);
    assert c * scf == r;
    assert s.value * r == s.value / s.factor * scf2;
    assert s.factor * scf * c == s.factor * (c * scf);
  }

  lemma ChangeScaleTimesPrime(p: Parameters, s: State, scf2: real, c: real, bridge: real)
    requires p.Valid() && p.technique != FIXEDAUTO && 0 <= s.level <= p.L && s.factor > 0.0
    requires c == ScaleChangeTimesPrime(scf2, s.factor, p.modReduceFactor[s.level], p.scalingFactorReal[s.level])
    ensures Rescaled(p, ScalarMultiplied(p, s, c).(factor := bridge)).value == s.value / s.factor * scf2
  {
    var scf, r, q := p.scalingFactorReal[s.level], scf2 / s.factor, p.prime[s.level] as real;
    Cancel(r * q, scf);
    assert c * scf == r * q;
    TimesThenDivide(s.value, r, q);
    assert s.value * r == s.value / s.factor * scf2;
  }

  /** The last rescale of the branches that end at degree 1. */
  lemma RescaleToDegreeOne(p: Parameters, s: State, t: State)
    requires p.Valid() && p.technique != FIXEDAUTO && Wf(p, s)
    requires 1 <= t.level <= s.level && t.degree == 2 && t.slots == s.slots
    requires t.factor == p.Canonical(t.level, 2)
    requires t.value == s.value / s.factor * p.Canonical(t.level, 2)
    ensures Rescaled(p, t) == Aligned(p, s, 1, t.level - 1)
  {
    RescaledFactor(p, t);
    ScaleThenRescale(p, s.value / s.factor, t.level);
  }

  /** FLEXIBLE, equal levels, lower degree: multiplying by 1.0 raises the degree. */
  lemma RaiseByOne(p: Parameters, s: State)
    requires p.Valid() && p.technique != FIXEDAUTO && Wf(p, s) && s.degree == 1
    ensures ScalarMultiplied(p, s, 1.0) == Aligned(p, s, 2, s.level)
  {
    var sf := p.scalingFactorReal[s.level];
    Cancel(s.value, sf);
    assert s.value * (1.0 * sf) == s.value / sf * (sf * sf);
  }

  // ---- Where two operands meet ----

  lemma AlignedFields(p: Parameters, s: State, degree: int, level: int)
    requires p.Valid() && Wf(p, s) && 0 <= level <= p.L
    ensures var t := Aligned(p, s, degree, level);
            t.level == level && t.degree == degree && t.factor == p.Canonical(level, degree) && t.slots == s.slots
            && t.value == AlignedValue(p, s, degree, level)
  {
  }

  /** One of two operands can always be adjusted to the other, the meeting point is that other
      operand's, and adding an operand already brought there changes nothing. */
  lemma MeetingPoint(p: Parameters, a: State, b: State)
    requires p.Valid() && Wf(p, a) && Wf(p, b)
    ensures CanAdjust(a, b.degree, b.level) ==>
              && MeetLevel(a, b) == b.level && MeetDegree(a, b) == b.degree
              && Aligned(p, b, b.degree, b.level) == b
    ensures !CanAdjust(a, b.degree, b.level) ==>
              && MeetLevel(a, b) == a.level && MeetDegree(a, b) == a.degree
              && CanAdjust(b, a.degree, a.level)
              && Wf(p, Aligned(p, b, a.degree, a.level))
              && (forall sign :: AddResult(p, a, Aligned(p, b, a.degree, a.level), sign) == AddResult(p, a, b, sign))
    ensures CanAdjust(a, b.degree, b.level) ==>
              && Wf(p, Aligned(p, a, b.degree, b.level))
              && (forall sign :: AddResult(p, Aligned(p, a, b.degree, b.level), b, sign) == AddResult(p, a, b, sign))
  {
    AlignedInPlace(p, b);
    AlignedInPlace(p, a);
    hide AlignedValue;
    if CanAdjust(a, b.degree, b.level) {
      AlignedInPlace(p, Aligned(p, a, b.degree, b.level));
    } else {
      AlignedInPlace(p, Aligned(p, b, a.degree, a.level));
    }
  }

  /** An operand ready for the product kernel is a valid degree-1 ciphertext at the canonical scale. */
  lemma MultOperandReady(p: Parameters, s: State, degree: int, level: int)
    requires p.Valid() && Wf(p, s) && 1 <= degree <= 2 && degree - 1 <= level <= p.L
    ensures var x := MultOperand(p, s, degree, level);
            Wf(p, x) && x.degree == 1 && x.level == level - (degree - 1) && x.slots == s.slots
  {
    if degree == 2 {
      RescaledFactor(p, Aligned(p, s, degree, level));
    }
  }

  /** The product of two ready operands is the product of the operands they came from. */
  lemma MultMeetingPoint(p: Parameters, a: State, b: State)
    requires p.Valid() && Wf(p, a) && Wf(p, b)
    ensures var d, l := MeetDegree(a, b), MeetLevel(a, b);
            var x, y := MultOperand(p, a, d, l), MultOperand(p, b, d, l);
            && 1 <= d <= 2 && d - 1 <= l
            && Wf(p, x) && Wf(p, y) && x.degree == y.degree == 1 && x.level == y.level == l - (d - 1)
            && MultResult(p, x, y) == Product(x, y) == MultResult(p, a, b)
            && x == (if d == 2 then Rescaled(p, Aligned(p, a, d, l)) else Aligned(p, a, d, l))
            && y == (if d == 2 then Rescaled(p, Aligned(p, b, d, l)) else Aligned(p, b, d, l))
            && Aligned(p, a, d, l).factor == Aligned(p, b, d, l).factor == p.Canonical(l, d)
            && (if CanAdjust(a, b.degree, b.level) then d == b.degree && l == b.level && Aligned(p, b, d, l) == b
                else CanAdjust(b, a.degree, a.level) && d == a.degree && l == a.level && Aligned(p, a, d, l) == a)
  {
    var d, l := MeetDegree(a, b), MeetLevel(a, b);
    MultOperandReady(p, a, d, l);
    MultOperandReady(p, b, d, l);
    AlignedInPlace(p, a);
    AlignedInPlace(p, b);
    AlignedInPlace(p, MultOperand(p, a, d, l));
    AlignedInPlace(p, MultOperand(p, b, d, l));
  }
}
