/** The ciphertext class: in-place operations that bring operands to a common level, degree and
    scale. Each method is proved against the closed forms of ScaleLadder. */
module CkksCiphertext {
  import opened Extrema
  import opened ScaleLadder
  import opened Circuits

  class Ciphertext {
    const cc: Parameters
    var level: int
    var noiseLevel: int
    var noiseFactor: real
    var value: real
    var slots: int

    ghost function Abs(): State
      reads this
    {
      State(level, noiseLevel, noiseFactor, value, slots)
    }

    ghost predicate Valid()
      reads this
    {
      cc.Valid() && Wf(cc, Abs())
    }

    ghost function Message(): real
      reads this
    {
      if noiseFactor == 0.0 then 0.0 else Abs().Message()
    }

    /** A copy, as `Ciphertext b_(cc_); b_.copy(b)`. */
    constructor Copy(b: Ciphertext)
      ensures cc == b.cc && Abs() == b.Abs()
    {
      cc, level, noiseLevel, noiseFactor, value, slots :=
        b.cc, b.level, b.noiseLevel, b.noiseFactor, b.value, b.slots;
    }

    /** The result is the source's closing assertion: the rescale landed on the canonical scale. */
    method RescaleInternal() returns (onScale: bool)
      requires cc.Valid() && 0 <= level <= cc.L
      modifies this
      ensures Abs() == Rescaled(cc, old(Abs()))
      ensures onScale <==> level >= 0 && noiseFactor == cc.Canonical(level, noiseLevel)
      ensures old(Wf(cc, Abs()) && noiseLevel == 2) ==> onScale && (cc.technique != FIXEDAUTO ==> Message() == old(Message()))
    {
      ghost var s := Abs();
      if Wf(cc, s) && s.degree == 2 {
        RescaledFactor(cc, s);
        if cc.technique != FIXEDAUTO {
          RescaledMessage(cc, s);
        }
      }
      hide Parameters.Canonical, Wf;
      noiseFactor := noiseFactor / cc.modReduceFactor[level];
      value := value / cc.prime[level] as real;
      level := level - 1;
      noiseLevel := noiseLevel - 1;
      onScale := level >= 0 && noiseFactor == cc.Canonical(level, noiseLevel);
    }

    /** The message is multiplied by the scalar; a degree-1 ciphertext at the canonical scale ends at the
        canonical scale of degree 2. */
    method MultScalarNoPrecheck(c: real)
      requires cc.Valid() && 0 <= level <= cc.L
      modifies this
      ensures Abs() == ScalarMultiplied(cc, old(Abs()), c)
      ensures old(noiseFactor) > 0.0 ==> noiseFactor > 0.0 && Message() == Mul(c, old(Message()))
      ensures old(noiseFactor == cc.Canonical(level, 1)) ==> noiseFactor == cc.Canonical(level, 2)
    {
      ScalarMultipliedMessage(cc, Abs(), c);
      ScalarMultipliedFields(cc, Abs(), c);
      hide Parameters.Canonical, Parameters.Valid, ScalarMultiplied, Mul;
      value := value * (c * cc.scalingFactorReal[level]);
      noiseLevel := noiseLevel + 1;
      noiseFactor := noiseFactor * cc.scalingFactorReal[level];
    }

    method MultScalar(c: real)
      requires Valid()
      modifies this
      ensures Abs() == ScalarMultiplied(cc, if old(noiseLevel) == 2 then Rescaled(cc, old(Abs())) else old(Abs()), c)
    {
      if noiseLevel == 2 {
        RescaledFactor(cc, Abs());
        var onScale := RescaleInternal();
        assert onScale;
      }
      MultScalarNoPrecheck(c);
    }

    /** FIXEDAUTO: what is raised here, then dropped to the target and rescaled, has its old value again,
        at the canonical scale below the target. */
    method RaiseDegreeToLevel(targetLevel: int)
      requires cc.Valid() && 0 <= level <= cc.L && 0 <= targetLevel <= cc.L
      modifies this
      ensures Abs() == Raised(cc, old(Abs()), targetLevel)
      ensures old(cc.technique == FIXEDAUTO && Wf(cc, Abs()) && noiseLevel == 1 && 1 <= targetLevel <= level) ==>
              Rescaled(cc, Abs().(level := targetLevel)) == State(targetLevel - 1, 1, cc.Canonical(targetLevel - 1, 1), old(value), old(slots))
    {
      if cc.technique == FIXEDAUTO && Wf(cc, Abs()) && noiseLevel == 1 && 1 <= targetLevel <= level {
        RaisedIsUndone(cc, Abs(), targetLevel);
      }
      RaisedFields(cc, Abs(), targetLevel);
      hide *;
      value := Mul(value, cc.prime[targetLevel] as real);
      noiseLevel := noiseLevel + 1;
      noiseFactor := Mul(noiseFactor, cc.scalingFactorReal[level]);
    }

    /** Drops towers without touching the value: `dropToLevel(level, skip_adjust = true)`. */
    method DropTowers(target: int)
      modifies this`level
      ensures level == Min(old(level), target)
    {
      if level > target {
        level := target;
      }
    }

    method DropToLevel(target: int)
      requires Valid() && 0 <= target && noiseLevel - 1 <= target <= cc.L
      modifies this
      ensures old(level) <= target ==> Abs() == old(Abs())
      ensures old(level) > target && cc.technique != FIXEDAUTO ==>
                Abs() == Aligned(cc, old(Abs()), old(noiseLevel), target)
      ensures old(level) > target && cc.technique == FIXEDAUTO ==> Abs() == old(Abs()).(level := target)
    {
      if level > target {
        if cc.technique != FIXEDAUTO {
          var ok := AdjustScaleAndLevel(noiseLevel, target, cc.Canonical(target, noiseLevel));
          assert ok;
        } else {
          DropTowers(target);
        }
      }
    }

    /** The alignment of one operand. Whatever the technique, levels and degrees, it succeeds
        exactly when the receiver is not below the target, leaves the receiver alone when it
        fails, and otherwise ends in the closed form. */
    method AdjustScaleAndLevel(scaleDegree: int, target: int, scalingFactor: real) returns (ok: bool)
      requires Valid()
      requires 1 <= scaleDegree <= 2 && scaleDegree - 1 <= target <= cc.L
      requires scalingFactor == cc.Canonical(target, scaleDegree)
      modifies this
      ensures ok <==> CanAdjust(old(Abs()), scaleDegree, target)
      ensures Abs() == if ok then Aligned(cc, old(Abs()), scaleDegree, target) else old(Abs())
    {
      var c1lvl, c2lvl, c1depth, c2depth := level, target, noiseLevel, scaleDegree;
      if cc.technique == FIXEDAUTO && c1depth == c2depth {
        if c1lvl > c2lvl {
          DropTowers(c2lvl);
        } else if c1lvl < c2lvl {
          return false;
        }
        return true;
      }
      if cc.technique == FIXEDAUTO {
        ok := AdjustFixedDegrees(scaleDegree, target);
        return;
      }
      hide Aligned, AlignedValue, ScalarMultiplied, Rescaled;
      if c1lvl > c2lvl {
        if c1depth == 2 {
          if c2depth == 2 {
            AdjustTwoToTwo(c2lvl, scalingFactor);
          } else {
            AdjustTwoToOne(c2lvl, scalingFactor);
          }
        } else {
          if c2depth == 2 {
            AdjustOneToTwo(c2lvl, scalingFactor);
          } else {
            AdjustOneToOne(c2lvl, scalingFactor);
          }
        }
        return true;
      } else if c1lvl < c2lvl {
        return false;
      } else {
        if c1depth < c2depth {
          RaiseByOne(cc, Abs());
          MultScalar(1.0);
        } else if c2depth < c1depth {
          return false;
        } else {
          AlignedInPlace(cc, Abs());
        }
        return true;
      }
    }

    /** FIXEDAUTO, different degrees: rescale down, or raise by the target's prime. */
    method AdjustFixedDegrees(scaleDegree: int, target: int) returns (ok: bool)
      requires Valid() && cc.technique == FIXEDAUTO && noiseLevel != scaleDegree
      requires 1 <= scaleDegree <= 2 && scaleDegree - 1 <= target <= cc.L
      modifies this
      ensures ok <==> CanAdjust(old(Abs()), scaleDegree, target)
      ensures Abs() == if ok then Aligned(cc, old(Abs()), scaleDegree, target) else old(Abs())
    {
      var c1lvl, c2lvl, c1depth, c2depth := level, target, noiseLevel, scaleDegree;
      if c1lvl == c2lvl {
        if c1depth < c2depth {
          RaiseDegreeToLevel(c2lvl);
          return true;
        }
        return false;
      }
      if c1lvl > c2lvl {
        if noiseLevel == 2 {
          RescaledFactor(cc, Abs());
          var onScale := RescaleInternal();
          assert onScale;
        } else {
          RaiseDegreeToLevel(c2lvl);
        }
        if level > c2lvl {
          DropTowers(c2lvl);
        }
        return true;
      }
      return false;
    }

    // ---- The four FLEXIBLE branches for a receiver above the target ----

    method AdjustTwoToTwo(c2lvl: int, scalingFactor: real)
      requires Valid() && cc.technique != FIXEDAUTO && noiseLevel == 2
      requires 1 <= c2lvl < level && scalingFactor == cc.Canonical(c2lvl, 2)
      modifies this
      ensures Abs() == Aligned(cc, old(Abs()), 2, c2lvl)
    {
      RescaleAtTop(scalingFactor);
      if level > c2lvl {
        DropTowers(c2lvl);
      }
      noiseFactor := scalingFactor;
    }

    /** The maneuver of the degree-2 branches: multiply by the ratio of scales times the top
        prime, then rescale by that prime. */
    method RescaleAtTop(scf2: real)
      requires Valid() && cc.technique != FIXEDAUTO && noiseLevel == 2 && level >= 2
      modifies this
      ensures level == old(level) - 1 && noiseLevel == 2 && slots == old(slots)
      ensures value == old(value) / old(noiseFactor) * scf2
    {
      var c1lvl := level;
      TopManeuver(cc, Abs(), scf2);
      hide *;
      var c := ScaleChangeTimesPrime(scf2, noiseFactor, cc.modReduceFactor[c1lvl], cc.scalingFactorReal[c1lvl]);
      MultScalarNoPrecheck(c);
      noiseFactor := Mul(cc.scalingFactorRealBig[c1lvl - 1], cc.modReduceFactor[c1lvl]);
      var onScale := RescaleInternal();
      assert onScale;
    }

    method AdjustTwoToOne(c2lvl: int, scalingFactor: real)
      requires Valid() && cc.technique != FIXEDAUTO && noiseLevel == 2
      requires 0 <= c2lvl < level && scalingFactor == cc.Canonical(c2lvl, 1)
      modifies this
      ensures Abs() == Aligned(cc, old(Abs()), 1, c2lvl)
    {
      hide Aligned, AlignedValue, Rescaled;
      ghost var s := Abs();
      if level - 1 == c2lvl {
        RescaledFactor(cc, s);
        RescaledIsAligned(cc, s);
        var onScale := RescaleInternal();
        assert onScale;
      } else {
        FlexibleBig(cc, c2lvl + 1);
        RescaleAtTop(cc.scalingFactorRealBig[c2lvl + 1]);
        if level - 1 > c2lvl {
          DropTowers(c2lvl + 1);
        }
        noiseFactor := cc.scalingFactorRealBig[level];
        LastRescale(s, scalingFactor);
      }
    }

    /** The rescale that ends a branch at degree 1, from the degree-2 scale one level above. */
    method LastRescale(ghost s: State, scalingFactor: real)
      requires cc.Valid() && cc.technique != FIXEDAUTO && Wf(cc, s)
      requires 1 <= level <= s.level && noiseLevel == 2 && slots == s.slots
      requires noiseFactor == cc.Canonical(level, 2)
      requires value == s.value / s.factor * cc.Canonical(level, 2)
      requires scalingFactor == cc.Canonical(level - 1, 1)
      modifies this
      ensures Abs() == Aligned(cc, s, 1, old(level) - 1)
    {
      RescaledFactor(cc, Abs());
      RescaleToDegreeOne(cc, s, Abs());
      hide *;
      var onScale := RescaleInternal();
      assert onScale;
      noiseFactor := scalingFactor;
    }

    /** The maneuver of the degree-1 branches: multiply by the ratio of scales, no rescale. */
    method ScaleTo(scf2: real) returns (c: real)
      requires Valid() && noiseLevel == 1
      modifies this
      ensures level == old(level) && noiseLevel == 2 && slots == old(slots)
      ensures value == old(value) / old(noiseFactor) * scf2
      ensures noiseFactor * c == scf2
    {
      c := ScaleChange(scf2, noiseFactor, cc.scalingFactorReal[level]);
      ChangeScale(cc, Abs(), scf2, c);
      hide *;
      MultScalarNoPrecheck(c);
    }

    method AdjustOneToTwo(c2lvl: int, scalingFactor: real)
      requires Valid() && cc.technique != FIXEDAUTO && noiseLevel == 1
      requires 1 <= c2lvl < level && scalingFactor == cc.Canonical(c2lvl, 2)
      modifies this
      ensures Abs() == Aligned(cc, old(Abs()), 2, c2lvl)
    {
      var _ := ScaleTo(scalingFactor);
      DropTowers(c2lvl);
      noiseFactor := scalingFactor;
    }

    method AdjustOneToOne(c2lvl: int, scalingFactor: real)
      requires Valid() && cc.technique != FIXEDAUTO && noiseLevel == 1
      requires 0 <= c2lvl < level && scalingFactor == cc.Canonical(c2lvl, 1)
      modifies this
      ensures Abs() == Aligned(cc, old(Abs()), 1, c2lvl)
    {
      ghost var s := Abs();
      FlexibleBig(cc, c2lvl + 1);
      var scf2 := cc.scalingFactorRealBig[c2lvl + 1];
      assert cc.Valid() && Wf(cc, s);
      hide Wf, Parameters.Canonical, Parameters.Valid, Aligned, AlignedValue, Rescaled, ScalarMultiplied;
      var c := ScaleTo(scf2);
      if level - 1 > c2lvl {
        DropTowers(c2lvl + 1);
      }
      noiseFactor := noiseFactor * c;
      LastRescale(s, scalingFactor);
    }

    /** `adjustForAddOrSub` under the automatic techniques. */
    method AdjustForAddOrSub(b: Ciphertext) returns (ok: bool)
      requires Valid() && b.Valid() && b.cc == cc
      modifies this
      ensures ok <==> CanAdjust(old(Abs()), old(b.noiseLevel), old(b.level))
      ensures Abs() == if ok then Aligned(cc, old(Abs()), old(b.noiseLevel), old(b.level)) else old(Abs())
    {
      ok := AdjustScaleAndLevel(b.noiseLevel, b.level, b.noiseFactor);
    }

    // ---- Addition and subtraction ----

    /** In-place sum. The operand is copied at most once, and the failure throw is unreachable: when
        the receiver cannot be adjusted to the operand, the copy can be adjusted to the receiver. */
    method Add(b: Ciphertext)
      requires Valid() && b.Valid() && b.cc == cc
      modifies this
      ensures Abs() == AddResult(cc, old(Abs()), old(b.Abs()), Plus)
      ensures slots >= old(slots) && slots >= old(b.slots) && (slots == old(slots) || slots == old(b.slots))
      ensures Abs().Budget() == Min(old(Abs().Budget()), old(b.Abs().Budget()))
      ensures cc.technique != FIXEDAUTO ==> Message() == old(Message()) + old(b.Message())
      decreases if CanAdjust(Abs(), b.noiseLevel, b.level) then 0 else 1
    {
      ghost var s, t := Abs(), b.Abs();
      SumFacts(cc, s, t, Plus);
      MeetingPoint(cc, s, t);
      hide Aligned, AlignedValue;
      var ok := AdjustForAddOrSub(b);
      if !ok {
        var b_ := new Ciphertext.Copy(b);
        ok := b_.AdjustForAddOrSub(this);
        assert ok;
        Add(b_);
        return;
      }
      AlignedFields(cc, s, t.degree, t.level);
      assert level == b.level && noiseLevel == b.noiseLevel;
      value := value + b.value;
      slots := Max(slots, b.slots);
    }

    method AddMutable(b: Ciphertext)
      requires Valid() && b.Valid() && b.cc == cc
      modifies this, b
      ensures Abs() == AddResult(cc, old(Abs()), old(b.Abs()), Plus)
      ensures slots >= old(slots) && slots >= old(b.slots) && (slots == old(slots) || slots == old(b.slots))
      ensures Abs().Budget() == Min(old(Abs().Budget()), old(b.Abs().Budget()))
      ensures cc.technique != FIXEDAUTO ==> Message() == old(Message()) + old(b.Message())
      ensures b != this ==> b.Abs() == Aligned(cc, old(b.Abs()), old(MeetDegree(Abs(), b.Abs())), old(MeetLevel(Abs(), b.Abs())))
    {
      ghost var s, t := Abs(), b.Abs();
      SumFacts(cc, s, t, Plus);
      MeetingPoint(cc, s, t);
      hide Aligned, AlignedValue;
      var ok := AdjustForAddOrSub(b);
      if !ok {
        ok := b.AdjustForAddOrSub(this);
        assert ok;
      }
      Add(b);
    }

    method Sub(b: Ciphertext)
      requires Valid() && b.Valid() && b.cc == cc
      modifies this
      ensures Abs() == AddResult(cc, old(Abs()), old(b.Abs()), Minus)
      ensures slots >= old(slots) && slots >= old(b.slots) && (slots == old(slots) || slots == old(b.slots))
      ensures Abs().Budget() == Min(old(Abs().Budget()), old(b.Abs().Budget()))
      ensures cc.technique != FIXEDAUTO ==> Message() == old(Message()) - old(b.Message())
      decreases if CanAdjust(Abs(), b.noiseLevel, b.level) then 0 else 1
    {
      ghost var s, t := Abs(), b.Abs();
      SumFacts(cc, s, t, Minus);
      MeetingPoint(cc, s, t);
      hide Aligned, AlignedValue;
      var ok := AdjustForAddOrSub(b);
      if !ok {
        var b_ := new Ciphertext.Copy(b);
        ok := b_.AdjustForAddOrSub(this);
        assert ok;
        Sub(b_);
        return;
      }
      AlignedFields(cc, s, t.degree, t.level);
      assert level == b.level && noiseLevel == b.noiseLevel;
      value := value - b.value;
      slots := Max(slots, b.slots);
    }

    method SubMutable(b: Ciphertext)
      requires Valid() && b.Valid() && b.cc == cc
      modifies this, b
      ensures Abs() == AddResult(cc, old(Abs()), old(b.Abs()), Minus)
      ensures slots >= old(slots) && slots >= old(b.slots) && (slots == old(slots) || slots == old(b.slots))
      ensures Abs().Budget() == Min(old(Abs().Budget()), old(b.Abs().Budget()))
      ensures cc.technique != FIXEDAUTO ==> Message() == old(Message()) - old(b.Message())
      ensures b != this ==> b.Abs() == Aligned(cc, old(b.Abs()), old(MeetDegree(Abs(), b.Abs())), old(MeetLevel(Abs(), b.Abs())))
    {
      ghost var s, t := Abs(), b.Abs();
      SumFacts(cc, s, t, Minus);
      MeetingPoint(cc, s, t);
      hide Aligned, AlignedValue;
      var ok := AdjustForAddOrSub(b);
      if !ok {
        ok := b.AdjustForAddOrSub(this);
        assert ok;
      }
      Sub(b);
    }

    // ---- Multiplication ----

    /** In-place product. It goes wrong for one call only: a degree-2 ciphertext as its own operand. Then
        the shared object is rescaled, and its copy once more, and the source's assertions on scale and
        degree fail; Square rescales first instead. */
    method Mult(b: Ciphertext) returns (ok: bool)
      requires Valid() && b.Valid() && b.cc == cc
      modifies this
      ensures ok <==> !(b == this && old(noiseLevel) == 2)
      ensures ok ==> Abs() == MultResult(cc, old(Abs()), old(b.Abs()))
      ensures ok ==> slots >= old(slots) && slots >= old(b.slots) && (slots == old(slots) || slots == old(b.slots))
      ensures ok ==> Abs().Budget() == Min(old(Abs().Budget()), old(b.Abs().Budget())) - 1
      ensures ok && cc.technique != FIXEDAUTO ==> Message() == Mul(old(Message()), old(b.Message()))
      decreases if level == b.level && noiseLevel == b.noiseLevel == 1 then 0 else 1
    {
      ProductFacts(cc, Abs(), b.Abs());
      MultMeetingPoint(cc, Abs(), b.Abs());
      hide Aligned, AlignedValue, Rescaled, MultOperand, Product;
      var bp, ready := AlignForMult(b);
      if !ready {
        return false;
      }
      if bp != b {
        ok := Mult(bp);
        return;
      }
      assert noiseLevel == 1 && b.noiseLevel == 1 && level == b.level;
      MultiplyKernel(b);
      ok := true;
    }

    /** Brings both operands to one level at degree 1. The second operand is copied only when it has
        to change: the result is `b` itself, untouched, or a fresh object. A degree-2 ciphertext that is
        its own operand is rescaled twice in the copy. */
    method AlignForMult(b: Ciphertext) returns (bp: Ciphertext, ready: bool)
      requires Valid() && b.Valid() && b.cc == cc
      modifies this
      ensures bp == b || fresh(bp)
      ensures old(level == b.level && noiseLevel == b.noiseLevel == 1) ==> bp == b
      ensures bp.cc == cc
      ensures ready <==> !(b == this && old(noiseLevel) == 2)
      ensures Abs() == old(MultOperand(cc, Abs(), MeetDegree(Abs(), b.Abs()), MeetLevel(Abs(), b.Abs())))
      ensures ready ==> bp.Abs() == old(MultOperand(cc, b.Abs(), MeetDegree(Abs(), b.Abs()), MeetLevel(Abs(), b.Abs())))
      ensures !ready ==> bp.Abs() == Rescaled(cc, Abs()) && bp.noiseLevel == 0 && bp.level == level - 1
    {
      MeetBeforeMult(cc, Abs(), b.Abs());
      hide Aligned, AlignedValue, Rescaled, MultOperand, Wf, Parameters.Canonical, MeetDegree, MeetLevel;
      bp := AlignBoth(b);
      ready := true;
      if noiseLevel == 2 {
        bp, ready := RescaleBoth(b, bp);
      }
    }

    /** The one-sided adjustment, of the receiver or else of a copy of the operand. */
    method AlignBoth(b: Ciphertext) returns (bp: Ciphertext)
      requires Valid() && b.Valid() && b.cc == cc
      modifies this
      ensures bp == b || fresh(bp)
      ensures old(b == this || (level == b.level && noiseLevel == b.noiseLevel)) ==> bp == b
      ensures bp.cc == cc
      ensures Abs() == old(Aligned(cc, Abs(), MeetDegree(Abs(), b.Abs()), MeetLevel(Abs(), b.Abs())))
      ensures bp.Abs() == old(Aligned(cc, b.Abs(), MeetDegree(Abs(), b.Abs()), MeetLevel(Abs(), b.Abs())))
    {
      MeetingPoint(cc, Abs(), b.Abs());
      AlignedInPlace(cc, Abs());
      hide Aligned, AlignedValue, Wf, Parameters.Canonical;
      bp := b;
      var ok := AdjustForAddOrSub(b);
      if !ok {
        bp := new Ciphertext.Copy(b);
        ok := bp.AdjustForAddOrSub(this);
        assert ok;
      }
    }

    /** Both operands are rescaled, the second in a copy. */
    method RescaleBoth(b: Ciphertext, bp0: Ciphertext) returns (bp: Ciphertext, ready: bool)
      requires Valid() && bp0.Valid() && bp0.cc == cc && noiseLevel == bp0.noiseLevel == 2
      requires bp0 == b || bp0 != this
      modifies this, if bp0 == b then {} else {bp0}
      ensures bp0 == b ==> fresh(bp)
      ensures bp0 != b ==> bp == bp0
      ensures bp.cc == cc && Abs() == old(Rescaled(cc, Abs()))
      ensures ready <==> bp0 != this
      ensures ready ==> bp.Abs() == old(Rescaled(cc, bp0.Abs()))
      ensures !ready ==> bp.Abs() == Rescaled(cc, Abs()) && bp.noiseLevel == 0 && bp.level == level - 1
    {
      RescaledFactor(cc, Abs());
      RescaledFactor(cc, bp0.Abs());
      hide Rescaled, Wf, Parameters.Canonical;
      var onScale := RescaleInternal();
      assert onScale;
      bp := bp0;
      if bp == b {
        bp := new Ciphertext.Copy(b);
      }
      onScale := bp.RescaleInternal();
      ready := bp.noiseLevel == 1;
    }

    method MultMutable(b: Ciphertext) returns (ok: bool)
      requires Valid() && b.Valid() && b.cc == cc
      modifies this, b
      ensures ok <==> !(b == this && old(noiseLevel) == 2)
      ensures ok ==> Abs() == MultResult(cc, old(Abs()), old(b.Abs()))
      ensures ok ==> slots >= old(slots) && slots >= old(b.slots) && (slots == old(slots) || slots == old(b.slots))
      ensures ok ==> Abs().Budget() == Min(old(Abs().Budget()), old(b.Abs().Budget())) - 1
      ensures ok && cc.technique != FIXEDAUTO ==> Message() == Mul(old(Message()), old(b.Message()))
      ensures ok && b != this ==> b.Abs() == MultOperand(cc, old(b.Abs()), old(MeetDegree(Abs(), b.Abs())), old(MeetLevel(Abs(), b.Abs())))
    {
      ghost var s, t := Abs(), b.Abs();
      ProductFacts(cc, s, t);
      MultMeetingPoint(cc, s, t);
      hide Aligned, AlignedValue, Rescaled, MultOperand, Product;
      ok := AdjustForAddOrSub(b);
      if !ok {
        ok := b.AdjustForAddOrSub(this);
        assert ok;
      }
      if noiseLevel == 2 {
        RescaledFactor(cc, Abs());
        RescaledFactor(cc, b.Abs());
        var onScale := RescaleInternal();
        onScale := b.RescaleInternal();
        if noiseLevel != 1 {
          return false;
        }
      }
      ok := Mult(b);
    }

    /** The tensor product and relinearisation, on exact values, with `multMetadata`. */
    method MultiplyKernel(b: Ciphertext)
      modifies this
      ensures Abs() == Product(old(Abs()), old(b.Abs()))
    {
      value, noiseFactor, noiseLevel, slots :=
        value * b.value, noiseFactor * b.noiseFactor, noiseLevel + b.noiseLevel, Max(slots, b.slots);
    }

    method Square()
      requires Valid()
      modifies this
      ensures Abs() == MultResult(cc, old(Abs()), old(Abs()))
      ensures slots == old(slots) && Abs().Budget() == old(Abs().Budget()) - 1
      ensures cc.technique != FIXEDAUTO ==> Message() == Mul(old(Message()), old(Message()))
    {
      ghost var s := Abs();
      ProductFacts(cc, s, s);
      MultMeetingPoint(cc, s, s);
      hide Rescaled, MultOperand, Product;
      if noiseLevel == 2 {
        RescaledFactor(cc, s);
        var onScale := RescaleInternal();
        assert onScale;
      }
      var ok := Mult(this);
      assert ok;
    }
  }

  /** What a sum or difference comes to: the smaller budget, and under FLEXIBLE the messages added or
      subtracted. */
  lemma SumFacts(p: Parameters, a: State, b: State, sign: Sign)
    requires p.Valid() && Wf(p, a) && Wf(p, b)
    ensures var s := AddResult(p, a, b, sign);
      && s.Budget() == Min(a.Budget(), b.Budget())
      && a.factor > 0.0 && b.factor > 0.0 && s.factor > 0.0
      && (p.technique != FIXEDAUTO ==>
            s.Message() == if sign == Plus then a.Message() + b.Message() else a.Message() - b.Message())
  {
    SumBudget(p, a, b, sign);
    if p.technique != FIXEDAUTO {
      SumMessage(p, a, b, sign);
    }
    hide AddResult, State.Message, Parameters.Valid;
  }

  lemma ProductFacts(p: Parameters, a: State, b: State)
    requires p.Valid() && Wf(p, a) && Wf(p, b)
    ensures var s := MultResult(p, a, b);
      && s.Budget() == Min(a.Budget(), b.Budget()) - 1
      && a.factor > 0.0 && b.factor > 0.0
      && (p.technique != FIXEDAUTO ==> s.factor > 0.0 && s.Message() == Mul(a.Message(), b.Message()))
  {
    ProductBudget(p, a, b);
    if p.technique != FIXEDAUTO {
      ProductMessage(p, a, b);
    }
    hide MultResult, State.Message, Mul, Parameters.Valid;
  }

  /** Where two operands meet before a product. */
  lemma MeetBeforeMult(p: Parameters, s: State, t: State)
    requires p.Valid() && Wf(p, s) && Wf(p, t)
    ensures var d, l := MeetDegree(s, t), MeetLevel(s, t);
      var x, y := Aligned(p, s, d, l), Aligned(p, t, d, l);
      && 1 <= d <= 2 && x.degree == y.degree == d && Wf(p, x) && Wf(p, y)
      && MultOperand(p, s, d, l) == (if d == 2 then Rescaled(p, x) else x)
      && MultOperand(p, t, d, l) == (if d == 2 then Rescaled(p, y) else y)
      && (s == t ==> d == s.degree) && (s.level == t.level && s.degree == t.degree ==> d == s.degree)
  {
    MeetingPoint(p, s, t);
  }
}
