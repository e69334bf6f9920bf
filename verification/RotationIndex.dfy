/** The automorphism index of a rotation: `automorph_index_precomp` raises 5 to 2N - idx modulo 2N,
    and that is a true inverse of 5^idx in the group of odd residues modulo 2N. */
module RotationIndex {
  import opened NumberTheory
  import opened Bits

  /** The exponent is computed in a 64-bit unsigned word. */
  const WORD_BITS: nat := 64

  /** 5^(2^j) = 1 modulo 2^(j+2). */
  lemma {:induction false} FiveSquaredRepeatedly(j: nat)
    ensures Pow(5, Pow2(j)) % Pow2(j + 2) == 1
  {
    if j == 0 {
      assert Pow(5, 1) == 5 && Pow2(2) == 4;
    } else {
      FiveSquaredRepeatedly(j - 1);
      var h, m := Pow2(j - 1), Pow2(j + 1);
      var x := Pow(5, h);
      PowAdd(5, h, h);
      SquareDoubles(x, m);
    }
  }

  /** If x = 1 modulo an even m then x*x = 1 modulo 2m. */
  lemma SquareDoubles(x: int, m: nat)
    requires m > 1 && m % 2 == 0 && x % m == 1
    ensures (x * x) % (2 * m) == 1
  {
    var t, h := x / m, m / 2;
    assert x == m * t + 1 && m == 2 * h;
    var p := h * t;
    assert m * t == 2 * p;
    var q := t * p + t;
    SquareForm(h, t, p);
    DivModUnique(2 * m, q, 1);
  }

  /** The square of 2ht + 1. */
  lemma SquareForm(h: int, t: int, p: int)
    requires p == h * t
    ensures (2 * p + 1) * (2 * p + 1) == (2 * (2 * h)) * (t * p + t) + 1
  {
    assert (2 * (2 * h)) * (t * p + t) == 4 * (h * t) * p + 4 * (h * t);
  }

  /** What holds modulo a multiple holds modulo the divisor. */
  lemma ReduceModulus(x: int, m: nat, k: nat)
    requires m > 1 && k > 0 && m * k > 0 && x % (m * k) == 1
    ensures x % m == 1
  {
    var q := x / (m * k);
    assert x == m * (k * q) + 1;
    DivModUnique(m, k * q, 1);
  }

  /** 5 raised to a large enough power of two is 1 modulo 2^k. */
  lemma FiveToPow2(j: nat, k: nat)
    requires 1 <= k <= j + 2
    ensures Pow(5, Pow2(j)) % Pow2(k) == 1
  {
    FiveSquaredRepeatedly(j);
    if k < j + 2 {
      Pow2Add(k, j + 2 - k);
      ReduceModulus(Pow(5, Pow2(j)), Pow2(k), Pow2(j + 2 - k));
    }
  }

  /** Exponents of 5 that differ by whole periods give the same residue. */
  lemma {:induction false} PeriodsVanish(e: nat, period: nat, times: nat, m: nat)
    requires m > 1 && Pow(5, period) % m == 1 && times * period >= 0
    ensures Pow(5, e + times * period) % m == Pow(5, e) % m
    decreases times
  {
    if times > 0 {
      NonNegativeProduct(times - 1, period);
      var f := e + (times - 1) * period;
      assert e + times * period == f + period;
      PeriodsVanish(e, period, times - 1, m);
      PowAdd(5, f, period);
      TimesOne(Pow(5, f), Pow(5, period), m);
    }
  }

  lemma TimesOne(x: int, y: int, m: nat)
    requires m > 1 && y % m == 1
    ensures (x * y) % m == x % m
  {
    MulMod(x, y, m);
  }

  lemma ExponentsAgree(e: nat, f: nat, k: int, period: nat, m: nat)
    requires m > 1 && Pow(5, period) % m == 1 && e == f + k * period
    ensures Pow(5, e) % m == Pow(5, f) % m
  {
    if k >= 0 {
      NonNegativeProduct(k, period);
      PeriodsVanish(f, period, k, m);
    } else {
      assert f == e + (-k) * period;
      NonNegativeProduct(-k, period);
      PeriodsVanish(e, period, -k, m);
    }
  }

  /** The exponent the host code passes to modpow: 2N - idx, wrapped to an unsigned word. */
  function Exponent(idx: int, numElems: nat): (e: nat) {
    (2 * numElems - idx) % Pow2(WORD_BITS)
  }

  /** The index the code computes, as a residue modulo 2N. */
  function AutomorphIndex(idx: int, numElems: nat): int
    requires numElems > 0
  {
    Pow(5, Exponent(idx, numElems)) % (2 * numElems)
  }

  method AutomorphIndexPrecomp(idx: int, numElems: nat) returns (k: nat)
    requires numElems > 0
    ensures k == AutomorphIndex(idx, numElems)
  {
    k := ModPow(5, Exponent(idx, numElems), 2 * numElems);
  }

  /** 2N and N/2 are periods of 5 modulo 2N. */
  lemma Periods(n: nat)
    ensures Pow(5, Pow2(n + 1)) % Pow2(n + 1) == 1
    ensures n >= 1 ==> Pow(5, Pow2(n - 1)) % Pow2(n + 1) == 1
  {
    FiveToPow2(n + 1, n + 1);
    if n >= 1 {
      FiveToPow2(n - 1, n + 1);
    }
  }

  lemma Unfold(idx: int, n: nat)
    ensures AutomorphIndex(idx, Pow2(n)) == Pow(5, Exponent(idx, Pow2(n))) % Pow2(n + 1)
    ensures Pow2(n + 1) == 2 * Pow2(n) > 1
    ensures Pow(5, 0) == 1
  {
  }

  lemma Wrap(x: int, word: nat, m: nat, turns: nat) returns (k: int)
    requires word > 0 && word == m * turns
    ensures (m - x) % word == k * m - x
  {
    var q := (m - x) / word;
    k := 1 - turns * q;
    assert word * q == (turns * q) * m;
  }

  /** The wrap-around of the unsigned word is harmless: 2^64 is a multiple of 2N. */
  lemma ExponentForm(idx: int, n: nat) returns (k: int)
    requires n < WORD_BITS
    ensures Exponent(idx, Pow2(n)) == k * Pow2(n + 1) - idx
  {
    Pow2Add(n + 1, WORD_BITS - (n + 1));
    k := Wrap(idx, Pow2(WORD_BITS), Pow2(n + 1), Pow2(WORD_BITS - (n + 1)));
  }

  /** Main result: for every ring dimension N = 2^n within the word and every rotation amount, the
      index times 5^idx is 1 modulo 2N. */
  lemma IndexIsInverse(idx: nat, n: nat)
    requires n < WORD_BITS
    ensures (AutomorphIndex(idx, Pow2(n)) * Pow(5, idx)) % (2 * Pow2(n)) == 1
  {
    hide *;
    Unfold(idx, n);
    var m, e := Pow2(n + 1), Exponent(idx, Pow2(n));
    var k := ExponentForm(idx, n);
    Periods(n);
    PowAdd(5, e, idx);
    ExponentsAgree(e + idx, 0, k, m, m);
    MulMod(Pow(5, e), Pow(5, idx), m);
    DivModUnique(m, 0, 1);
  }

  /** A rotation the other way (negative amount) uses the plain power of 5. */
  lemma NegativeIndexIsPower(idx: nat, n: nat)
    requires n < WORD_BITS
    ensures AutomorphIndex(0 - idx, Pow2(n)) == Pow(5, idx) % (2 * Pow2(n))
  {
    hide *;
    Unfold(0 - idx, n);
    var k := ExponentForm(0 - idx, n);
    Periods(n);
    ExponentsAgree(Exponent(0 - idx, Pow2(n)), idx, k, Pow2(n + 1), Pow2(n + 1));
  }

  /** The indices of two rotations multiply to the index of their sum. */
  lemma IndicesMultiply(i: int, j: int, n: nat)
    requires n < WORD_BITS
    ensures var N := Pow2(n);
            (AutomorphIndex(i, N) * AutomorphIndex(j, N)) % (2 * N) == AutomorphIndex(i + j, N)
  {
    hide *;
    Unfold(i, n);
    Unfold(j, n);
    Unfold(i + j, n);
    var k := ExponentsAdd(i, j, n);
    Periods(n);
    PowersMultiply(Exponent(i, Pow2(n)), Exponent(j, Pow2(n)), Exponent(i + j, Pow2(n)), k, Pow2(n + 1));
  }

  lemma ExponentsAdd(i: int, j: int, n: nat) returns (k: int)
    requires n < WORD_BITS
    ensures Exponent(i, Pow2(n)) + Exponent(j, Pow2(n)) == Exponent(i + j, Pow2(n)) + k * Pow2(n + 1)
  {
    hide *;
    var ke := ExponentForm(i, n);
    var kf := ExponentForm(j, n);
    var kg := ExponentForm(i + j, n);
    CombineMultiples(ke, kf, kg, Pow2(n + 1));
    k := ke + kf - kg;
  }

  lemma PowersMultiply(e: nat, f: nat, g: nat, k: int, m: nat)
    requires m > 1 && Pow(5, m) % m == 1 && e + f == g + k * m
    ensures ((Pow(5, e) % m) * (Pow(5, f) % m)) % m == Pow(5, g) % m
  {
    hide *;
    ExponentsAgree(e + f, g, k, m, m);
    PowAdd(5, e, f);
    ProductOfRemainders(Pow(5, e), Pow(5, f), m);
  }

  lemma CombineMultiples(a: int, b: int, c: int, m: int)
    ensures (a + b - c) * m == a * m + b * m - c * m
  {
  }

  lemma ProductOfRemainders(x: int, y: int, m: nat)
    requires m > 0
    ensures ((x % m) * (y % m)) % m == (x * y) % m
  {
    MulMod(x, y % m, m);
    MulMod(x, y, m);
  }

  /** Rotating by all N/2 slots is no rotation: the index depends on the amount modulo N/2 only. */
  lemma FullTurnIsIdentity(idx: int, n: nat)
    requires 1 <= n < WORD_BITS
    ensures AutomorphIndex(idx + Pow2(n - 1), Pow2(n)) == AutomorphIndex(idx, Pow2(n))
  {
    hide *;
    var N, m, half := Pow2(n), Pow2(n + 1), Pow2(n - 1);
    Unfold(idx, n - 1);
    Unfold(idx, n);
    Unfold(idx + half, n);
    var e, f := Exponent(idx + half, N), Exponent(idx, N);
    var ke := ExponentForm(idx + half, n);
    var kf := ExponentForm(idx, n);
    Periods(n);
    Quarter(ke, kf, half, m);
    ExponentsAgree(e, f, 4 * (ke - kf) - 1, half, m);
  }

  lemma Quarter(a: int, b: int, half: int, m: int)
    requires m == 2 * (2 * half)
    ensures (4 * (a - b) - 1) * half == a * m - b * m - half
  {
  }

  /** The index a fused hoisted rotation passes on: 2N - 1 stands for conjugation and stays. */
  function FusedIndex(idx: int, N: nat): int
    requires N > 0
  {
    if idx == 2 * N - 1 then 2 * N - 1 else AutomorphIndex(idx, N)
  }

  /** What the kernel needs of an index: 2N - 1 is kept for conjugation; every other amount gets a residue
      modulo 2N that, for N a power of two within the word, undoes 5 to that amount. */
  ghost predicate Fuses(index: int, idx: int, N: nat) {
    if idx == 2 * N - 1 then index == 2 * N - 1
    else
      && 0 <= index < 2 * N
      && forall n: nat :: n < 64 && Pow2(n) == N ==>
           if idx >= 0 then (index * Pow(5, idx)) % (2 * N) == 1 else index == Pow(5, 0 - idx) % (2 * N)
  }

  lemma FusedIndexFuses(idx: int, N: nat)
    requires N > 0
    ensures Fuses(FusedIndex(idx, N), idx, N)
  {
    InRange(idx, N);
    forall n: nat | n < 64 && Pow2(n) == N && idx != 2 * N - 1
      ensures if idx >= 0 then (FusedIndex(idx, N) * Pow(5, idx)) % (2 * N) == 1 else FusedIndex(idx, N) == Pow(5, 0 - idx) % (2 * N)
    {
      hide AutomorphIndex;
      if idx >= 0 {
        IndexIsInverse(idx, n);
      } else {
        NegativeIndexIsPower(0 - idx, n);
      }
    }
    hide AutomorphIndex;
  }

  lemma InRange(idx: int, N: nat)
    requires N > 0
    ensures 0 <= AutomorphIndex(idx, N) < 2 * N
  {
  }

  method MapFusedIndices(indexes: seq<int>, N: nat) returns (r: seq<int>)
    requires N > 0
    ensures |r| == |indexes| && forall j :: 0 <= j < |r| ==> r[j] == FusedIndex(indexes[j], N)
    ensures forall j :: 0 <= j < |r| ==> Fuses(r[j], indexes[j], N)
  {
    r := indexes;
    for j := 0 to |indexes|
      invariant |r| == |indexes|
      invariant forall i :: 0 <= i < j ==> r[i] == FusedIndex(indexes[i], N)
      invariant forall i :: j <= i < |r| ==> r[i] == indexes[i]
    {
      if r[j] != 2 * N - 1 {
        var k := AutomorphIndexPrecomp(r[j], N);
        r := r[j := k];
      }
    }
    forall j | 0 <= j < |r| ensures Fuses(r[j], indexes[j], N) {
      FusedIndexFuses(indexes[j], N);
    }
  }

  /** Conjugation is its own inverse. */
  lemma ConjugationIsInvolution(N: nat)
    requires N > 0
    ensures (FusedIndex(2 * N - 1, N) * FusedIndex(2 * N - 1, N)) % (2 * N) == 1
  {
    var m := 2 * N;
    assert (m - 1) * (m - 1) == m * (m - 2) + 1;
    DivModUnique(m, m - 2, 1);
  }
}
