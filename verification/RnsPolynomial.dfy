/** Polynomials in residue form: one limb of residues per tower of the prime chain. The in-place
    operations that alignment uses (scalar product, tower drop, rescale) and the store / load / free
    life cycle of the device limbs. Limbs are read in the coefficient domain, where the rescale of
    the fused kernels acts on each coefficient by itself. */
module RnsPolynomial {
  import opened NumberTheory

  type Limb = seq<nat>

  datatype Context = Context(prime: seq<nat>, N: nat) {
    /** Any chain of pairwise distinct primes. */
    ghost predicate Valid() {
      && (forall i :: 0 <= i < |prime| ==> IsPrime(prime[i]))
      && (forall i, j :: 0 <= i < j < |prime| ==> prime[i] != prime[j])
    }

    ghost predicate LimbOk(limb: Limb, i: nat)
      requires i < |prime|
    {
      |limb| == N && forall j :: 0 <= j < N ==> limb[j] < prime[i]
    }

    ghost predicate TowersOk(towers: seq<Limb>) {
      |towers| <= |prime| && forall i :: 0 <= i < |towers| ==> LimbOk(towers[i], i)
    }
  }

  // ---- The effect of the operations on the towers in use ----

  function ScaledLimb(limb: Limb, factor: nat, q: nat): Limb
    requires q > 0
  {
    seq(|limb|, j requires 0 <= j < |limb| => limb[j] * factor % q)
  }

  /** Every tower multiplied by the residues of one integer. */
  function ScaledTowers(cc: Context, towers: seq<Limb>, factor: nat): (r: seq<Limb>)
    requires cc.Valid() && cc.TowersOk(towers)
    ensures |r| == |towers|
  {
    seq(|towers|, i requires 0 <= i < |towers| => ScaledLimb(towers[i], factor % cc.prime[i], cc.prime[i]))
  }

  /** The representative of a residue in (-q/2, q/2]. */
  function Centered(a: nat, q: nat): (r: int)
    ensures a < q ==> 0 - q < 2 * r <= q && (r == a || r == a - q)
  {
    if a > q / 2 then a - q else a
  }

  /** Moves a residue modulo `om` to the residue modulo `nm` of the same centered integer. */
  function SwitchModulus(a: nat, om: nat, nm: nat): (r: nat)
    requires a < om && nm > 0
    ensures r == Centered(a, om) % nm
  {
    if nm > om then
      var diff := nm - om;
      SwitchUp(a, om, nm);
      if a > om / 2 then a + diff else a
    else
      var diff := nm - om % nm;
      SwitchDown(a, om, nm);
      var b := if a > om / 2 then a + diff else a;
      if b >= nm then b % nm else b
  }

  lemma SwitchUp(a: nat, om: nat, nm: nat)
    requires a < om < nm
    ensures Centered(a, om) % nm == if a > om / 2 then a + (nm - om) else a
  {
    DivModUnique(nm, 0, a);
    if a > om / 2 {
      DivModUnique(nm, -1, a + (nm - om));
    }
  }

  lemma SwitchDown(a: nat, om: nat, nm: nat)
    requires a < om && 0 < nm <= om
    ensures var b := if a > om / 2 then a + (nm - om % nm) else a; Centered(a, om) % nm == b % nm
    ensures forall b: nat :: b < nm ==> b % nm == b
  {
    forall b: nat | b < nm ensures b % nm == b {
      DivModUnique(nm, 0, b);
    }
    if a > om / 2 {
      assert a + (nm - om % nm) == (a - om) + (om / nm + 1) * nm;
      ModShift(a - om, om / nm + 1, nm);
    }
  }

  /** One residue of a rescale: (c - [top]) * top_prime^-1. */
  function RescaledResidue(c: nat, top: nat, inv: nat, qTop: nat, q: nat): (r: nat)
    requires top < qTop && q > 0
    ensures r < q
  {
    inv * ((c - SwitchModulus(top, qTop, q)) % q) % q
  }

  /** r is the inverse of x modulo q. */
  ghost predicate IsInverse(x: nat, r: nat, q: nat) {
    q > 1 && r < q && (x * r) % q == 1
  }

  /** `r` is the rescale of `towers`: the top tower is gone, and every other residue had the top one
      subtracted and the top prime divided out. */
  ghost predicate IsRescaled(cc: Context, towers: seq<Limb>, r: seq<Limb>)
    requires cc.Valid() && cc.TowersOk(towers) && |towers| > 0
  {
    var top := |towers| - 1;
    && |r| == top
    && forall i :: 0 <= i < top ==> IsRescaledLimb(cc.prime[top], cc.prime[i], towers[i], towers[top], r[i])
  }

  function RescaledLimb(limb: Limb, topLimb: Limb, inv: nat, qTop: nat, q: nat): Limb
    requires |limb| == |topLimb| && q > 0 && forall j :: 0 <= j < |topLimb| ==> topLimb[j] < qTop
  {
    seq(|limb|, j requires 0 <= j < |limb| => RescaledResidue(limb[j], topLimb[j], inv, qTop, q))
  }

  ghost predicate IsRescaledLimb(qTop: nat, q: nat, limb: Limb, topLimb: Limb, r: Limb)
    requires |limb| == |topLimb| && q > 0 && forall j :: 0 <= j < |topLimb| ==> topLimb[j] < qTop
  {
    exists inv: nat :: IsInverse(qTop, inv, q) && r == RescaledLimb(limb, topLimb, inv, qTop, q)
  }

  /** Distinct primes are invertible modulo each other. */
  lemma DistinctPrimes(p: nat, q: nat)
    requires IsPrime(p) && IsPrime(q) && p != q
    ensures p % q != 0
  {
    if p % q == 0 {
      assert p == q * (p / q);
      if q > p {
        DivModUnique(q, 0, p);
      }
    }
  }

  // ---- The class ----

  class RNSPoly {
    const cc: Context
    var level: int
    var modUp: bool
    var limb: seq<Limb>

    /** Limbs above `level` may linger: dropping towers does not free them. */
    ghost predicate Shape()
      reads this
    {
      cc.Valid() && -1 <= level && level + 1 <= |limb| <= |cc.prime|
    }

    ghost predicate Valid()
      reads this
    {
      Shape() && cc.TowersOk(limb[..level + 1])
    }

    ghost function Towers(): seq<Limb>
      reads this
      requires Shape()
    {
      limb[..level + 1]
    }

    constructor (cc: Context)
      requires cc.Valid()
      ensures this.cc == cc && Valid() && Towers() == [] && !modUp
    {
      this.cc, level, modUp, limb := cc, -1, false, [];
    }

    /** Limb i times elem[i], for every tower in use; further factors are ignored. */
    method MultScalar(elem: seq<nat>)
      requires Valid() && |elem| >= level + 1
      modifies this`limb
      ensures Valid() && |Towers()| == |old(Towers())|
      ensures forall i :: 0 <= i <= level ==> Towers()[i] == ScaledLimb(old(Towers())[i], elem[i], cc.prime[i])
    {
      for i := 0 to level + 1
        invariant Valid() && |limb| == old(|limb|)
        invariant forall k :: 0 <= k < i ==> limb[k] == ScaledLimb(old(limb[k]), elem[k], cc.prime[k])
        invariant forall k :: i <= k <= level ==> limb[k] == old(limb[k])
      {
        limb := limb[i := ScaledLimb(limb[i], elem[i], cc.prime[i])];
      }
    }

    method DropToLevel(target: int)
      requires Valid() && -1 <= target
      modifies this`level
      ensures Valid() && level == if old(level) > target then target else old(level)
      ensures Towers() == old(Towers())[..level + 1]
    {
      if level > target {
        level := target;
      }
    }

    method Rescale()
      requires Valid() && level >= 0
      modifies this
      ensures Valid() && level == old(level) - 1 && modUp == old(modUp)
      ensures IsRescaled(cc, old(Towers()), Towers())
    {
      var top := level;
      ghost var towers := Towers();
      for i := 0 to top
        invariant Valid() && level == top && |limb| == old(|limb|) && modUp == old(modUp)
        invariant forall k :: i <= k <= top ==> limb[k] == towers[k]
        invariant forall k :: 0 <= k < i ==> IsRescaledLimb(cc.prime[top], cc.prime[k], towers[k], towers[top], limb[k])
      {
        var q, qTop := cc.prime[i], cc.prime[top];
        DistinctPrimes(qTop, q);
        var inv := ModInv(qTop, q);
        var r := RescaledLimb(limb[i], limb[top], inv, qTop, q);
        assert IsInverse(qTop, inv, q);
        limb := limb[i := r];
      }
      level := level - 1;
    }

    /** Grows to `target` towers; the new limbs are uninitialised device memory. */
    method Grow(target: int)
      requires Shape() && target < |cc.prime|
      modifies this`level, this`limb
      ensures Shape() && level == if old(level) < target then target else old(level)
    {
      if level >= target {
        return;
      }
      while |limb| < target + 1
        invariant -1 <= level && level + 1 <= |limb| <= |cc.prime| && level == old(level)
      {
        var garbage: Limb := *;
        limb := limb + [garbage];
      }
      level := target;
    }

    method Load(data: seq<Limb>, moduli: seq<nat>)
      requires Valid() && |moduli| == |data| && cc.TowersOk(data)
      // non-extended: every modulus is the prime of its own tower
      requires forall i :: 0 <= i < |data| ==> moduli[i] == cc.prime[i]
      modifies this
      ensures Valid() && Towers() == data && level == |data| - 1 && modUp == old(modUp)
    {
      var limbsize := 0;
      for i := 0 to |data|
        invariant limbsize == i
      {
        if i < |cc.prime| && moduli[i] == cc.prime[i] {
          limbsize := limbsize + 1;
        }
      }
      if level < limbsize - 1 {
        Grow(limbsize - 1);
      }
      if level > limbsize - 1 {
        DropToLevel(limbsize - 1);
      }
      for i := 0 to limbsize
        invariant Shape() && level == |data| - 1 && modUp == old(modUp)
        invariant limb[..i] == data[..i]
      {
        limb := limb[i := data[i]];
      }
    }

    method Store() returns (data: seq<Limb>)
      requires Valid()
      ensures data == Towers()
    {
      data := [];
      for i := 0 to level + 1
        invariant data == limb[..i]
      {
        data := data + [limb[i]];
      }
    }

    method FreeGPU()
      requires Valid()
      modifies this`level, this`limb
      ensures Valid() && level == -1 && limb == []
    {
      limb := [];
      level := -1;
    }
  }

  // ---- What the operations mean ----

  /** The towers hold the residues of the integer coefficients `x`. */
  ghost predicate Represents(cc: Context, towers: seq<Limb>, x: seq<int>)
    requires cc.Valid() && cc.TowersOk(towers)
  {
    |x| == cc.N && forall i, j :: 0 <= i < |towers| && 0 <= j < cc.N ==> towers[i][j] == x[j] % cc.prime[i]
  }

  function ScaledInts(x: seq<int>, factor: int): seq<int> {
    seq(|x|, j requires 0 <= j < |x| => x[j] * factor)
  }

  lemma ScaledTowersOk(cc: Context, towers: seq<Limb>, factor: nat)
    requires cc.Valid() && cc.TowersOk(towers)
    ensures cc.TowersOk(ScaledTowers(cc, towers, factor))
  {
  }

  /** Multiplying every tower multiplies the integers. */
  lemma ScalingRepresents(cc: Context, towers: seq<Limb>, factor: nat, x: seq<int>)
    requires cc.Valid() && cc.TowersOk(towers) && Represents(cc, towers, x)
    ensures cc.TowersOk(ScaledTowers(cc, towers, factor))
    ensures Represents(cc, ScaledTowers(cc, towers, factor), ScaledInts(x, factor))
  {
    ScaledTowersOk(cc, towers, factor);
    forall i, j | 0 <= i < |towers| && 0 <= j < cc.N
      ensures ScaledTowers(cc, towers, factor)[i][j] == ScaledInts(x, factor)[j] % cc.prime[i]
    {
      var q := cc.prime[i];
      MulMod(x[j] % q, factor, q);
      MulMod(x[j], factor, q);
    }
  }

  /** Division of an integer by q rounded to nearest, as the rescale performs it. */
  function RoundedQuotient(x: int, q: nat): (y: int)
    requires q > 0
    ensures 2 * (x - q * y) <= q && 2 * (q * y - x) <= q
  {
    if x % q > q / 2 then x / q + 1 else x / q
  }

  lemma CenteredQuotient(x: int, q: nat)
    requires q > 0
    ensures x - Centered(x % q, q) == RoundedQuotient(x, q) * q
  {
    assert (x / q + 1) * q == x / q * q + q;
  }

  /** One residue: subtracting the centered top residue and dividing by the top prime gives the
      residue of the rounded quotient. */
  lemma RescaledResidueMeans(x: int, inv: nat, qTop: nat, q: nat)
    requires qTop > 0 && IsInverse(qTop, inv, q)
    ensures RescaledResidue(x % q, x % qTop, inv, qTop, q) == RoundedQuotient(x, qTop) % q
  {
    var c, y := Centered(x % qTop, qTop), RoundedQuotient(x, qTop);
    CenteredQuotient(x, qTop);
    SubMod(x % q, c, q);
    SubMod(x, c, q);
    MulMod(inv, x - c, q);
    InverseCancels(y, qTop, inv, q);
  }

  lemma InverseCancels(y: int, x: nat, inv: nat, q: nat)
    requires IsInverse(x, inv, q)
    ensures (inv * (y * x)) % q == y % q
  {
    assert inv * (y * x) == (x * inv) * y;
    MulMod(x * inv, y, q);
  }

  /** Main result on rescale: residues of x become residues of x divided by the dropped prime and
      rounded to nearest. */
  lemma RescaleRounds(cc: Context, towers: seq<Limb>, r: seq<Limb>, x: seq<int>)
    requires cc.Valid() && cc.TowersOk(towers) && |towers| > 0 && Represents(cc, towers, x)
    requires IsRescaled(cc, towers, r)
    ensures cc.TowersOk(r)
    ensures Represents(cc, r, seq(cc.N, j requires 0 <= j < cc.N && |x| == cc.N && cc.prime[|towers| - 1] > 0
                                        => RoundedQuotient(x[j], cc.prime[|towers| - 1])))
  {
    var top := |towers| - 1;
    var qTop := cc.prime[top];
    forall i, j | 0 <= i < top && 0 <= j < cc.N
      ensures |r[i]| == cc.N && r[i][j] < cc.prime[i] && r[i][j] == RoundedQuotient(x[j], qTop) % cc.prime[i]
    {
      var q := cc.prime[i];
      var inv: nat :| IsInverse(qTop, inv, q) && r[i] == RescaledLimb(towers[i], towers[top], inv, qTop, q);
      RescaledResidueMeans(x[j], inv, qTop, q);
    }
    forall i | 0 <= i < top ensures |r[i]| == cc.N {
      var inv: nat :| IsInverse(qTop, inv, cc.prime[i]) && r[i] == RescaledLimb(towers[i], towers[top], inv, qTop, cc.prime[i]);
    }
  }

  /** One residue of the FIXEDAUTO detour: times the target's prime, then divided by it again. */
  lemma RaiseThenDivide(c: nat, qTop: nat, inv: nat, q: nat)
    requires IsInverse(qTop, inv, q) && qTop > 0 && c < q
    ensures RescaledResidue(c * (qTop % q) % q, 0, inv, qTop, q) == c
  {
    DivModUnique(q, 0, c);
    DivModUnique(q, 0, 0);
    DivModUnique(q, 0, c * (qTop % q) % q);
    MulMod(c, qTop, q);
    MulMod(inv, c * qTop, q);
    InverseCancels(c, qTop, inv, q);
  }

  /** Main result on FIXEDAUTO alignment: raising the degree by the prime of tower t, dropping to t,
      and rescaling tower t away gives back exactly the original residues below t. */
  lemma RaiseDropRescaleIsExact(cc: Context, towers: seq<Limb>, t: nat, r: seq<Limb>)
    requires cc.Valid() && cc.TowersOk(towers) && t < |towers|
    requires var raised := ScaledTowers(cc, towers, cc.prime[t]);
             cc.TowersOk(raised[..t + 1]) && IsRescaled(cc, raised[..t + 1], r)
    ensures r == towers[..t]
  {
    var qTop := cc.prime[t];
    var raised := ScaledTowers(cc, towers, qTop);
    forall i | 0 <= i < t ensures r[i] == towers[i] {
      var q := cc.prime[i];
      var inv: nat :| IsInverse(qTop, inv, q) && r[i] == RescaledLimb(raised[i], raised[t], inv, qTop, q);
      forall j | 0 <= j < cc.N ensures r[i][j] == towers[i][j] {
        assert raised[t][j] == 0 by {
          ModMultiple(1, qTop);
          ModMultiple(0, qTop);
        }
        RaiseThenDivide(towers[i][j], qTop, inv, q);
      }
    }
  }
}
