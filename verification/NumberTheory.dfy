/** Modular arithmetic shared by the residue and rotation models: powers, the square-and-multiply
    loop, inverses modulo a prime, and Fermat's little theorem, on which `modinv` relies. */
module NumberTheory {

  // ---- Remainders ----

  lemma QuotientUnique(m: int, q: int, r: int, q': int, r': int)
    requires 0 <= r < m && 0 <= r' < m && m * q + r == m * q' + r'
    ensures q == q' && r == r'
  {
    var d := q - q';
    assert m * d == r' - r;
    if d >= 1 {
      assert m * d == m + m * (d - 1);
      NonNegativeProduct(m, d - 1);
    } else if d <= -1 {
      assert m * d == -m - m * (-d - 1);
      NonNegativeProduct(m, -d - 1);
    }
  }

  lemma NonNegativeProduct(a: int, b: int)
    requires a >= 0 && b >= 0
    ensures a * b >= 0
  {
  }

  lemma DivModUnique(m: int, q: int, r: int)
    requires m > 0 && 0 <= r < m
    ensures (m * q + r) / m == q && (m * q + r) % m == r
  {
    var x := m * q + r;
    QuotientUnique(m, q, r, x / m, x % m);
  }

  lemma ModShift(x: int, k: int, m: int)
    requires m > 0
    ensures (x + k * m) % m == x % m
  {
    assert x + k * m == m * (x / m + k) + x % m;
    DivModUnique(m, x / m + k, x % m);
  }

  lemma ModMultiple(k: int, m: int)
    requires m > 0
    ensures (k * m) % m == 0
  {
    ModShift(0, k, m);
  }

  lemma MulMod(a: int, b: int, m: int)
    requires m > 0
    ensures ((a % m) * b) % m == (a * b) % m
    ensures (a * (b % m)) % m == (a * b) % m
  {
    assert a * b == (a % m) * b + ((a / m) * b) * m;
    ModShift((a % m) * b, (a / m) * b, m);
    assert a * b == a * (b % m) + (a * (b / m)) * m;
    ModShift(a * (b % m), a * (b / m), m);
  }

  lemma AddMod(a: int, b: int, m: int)
    requires m > 0
    ensures (a % m + b) % m == (a + b) % m
    ensures (a + b % m) % m == (a + b) % m
  {
    assert a + b == (a % m + b) + (a / m) * m;
    ModShift(a % m + b, a / m, m);
    assert a + b == (a + b % m) + (b / m) * m;
    ModShift(a + b % m, b / m, m);
  }

  lemma SubMod(a: int, b: int, m: int)
    requires m > 0
    ensures (a - b % m) % m == (a - b) % m
    ensures (a % m - b) % m == (a - b) % m
  {
    AddMod(a, -b, m);
    SubtractRemainder(a, b, m);
  }

  lemma SubtractRemainder(a: int, b: int, m: int)
    requires m > 0
    ensures (a - b % m) % m == (a - b) % m
  {
    var q, r := b / m, b % m;
    assert b == q * m + r;
    assert a - b == (a - r) + (-q) * m;
    ModShift(a - r, -q, m);
  }

  lemma MulCongruent(a: int, b: int, c: int, d: int, m: int)
    requires m > 0 && a % m == b % m && c % m == d % m
    ensures (a * c) % m == (b * d) % m
  {
    MulMod(a, c, m);
    MulMod(b, c, m);
    MulMod(b, d, m);
  }

  // ---- Powers ----

  function Pow(b: int, e: nat): int {
    if e == 0 then 1 else b * Pow(b, e - 1)
  }

  lemma {:induction false} PowAdd(b: int, e: nat, f: nat)
    ensures Pow(b, e + f) == Pow(b, e) * Pow(b, f)
  {
    if e > 0 {
      PowAdd(b, e - 1, f);
      assert b * (Pow(b, e - 1) * Pow(b, f)) == (b * Pow(b, e - 1)) * Pow(b, f);
    }
  }

  lemma {:induction false} PowSquare(b: int, e: nat)
    ensures Pow(b * b, e) == Pow(b, 2 * e)
  {
    if e > 0 {
      PowSquare(b, e - 1);
      assert Pow(b, 2 * e) == b * (b * Pow(b, 2 * e - 2));
      assert b * (b * Pow(b, 2 * e - 2)) == (b * b) * Pow(b, 2 * (e - 1));
    }
  }

  lemma {:induction false} PowCongruent(a: int, b: int, e: nat, m: int)
    requires m > 0 && a % m == b % m
    ensures Pow(a, e) % m == Pow(b, e) % m
  {
    if e > 0 {
      PowCongruent(a, b, e - 1, m);
      MulCongruent(a, b, Pow(a, e - 1), Pow(b, e - 1), m);
    }
  }

  /** Square and multiply, as in the host code's modpow. */
  method ModPow(base: nat, exponent: nat, p: nat) returns (r: nat)
    requires p > 1
    ensures r == Pow(base, exponent) % p
  {
    var a: nat, e: nat := base, exponent;
    r := 1;
    while e > 0
      invariant r < p
      invariant (r * Pow(a, e)) % p == Pow(base, exponent) % p
    {
      ModPowStep(a, e, r, p);
      hide *;
      if e % 2 == 1 {
        r := a * r % p;
      }
      e := e / 2;
      a := a * a % p;
    }
  }

  lemma ModPowStep(a: nat, e: nat, r: nat, p: nat)
    requires p > 1 && e > 0
    ensures var r' := if e % 2 == 1 then a * r % p else r;
            (r' * Pow(a * a % p, e / 2)) % p == (r * Pow(a, e)) % p
  {
    var h, b := e / 2, a * a % p;
    var s := Pow(a, 2 * h);
    SquaredBase(a, h, p);
    if e % 2 == 1 {
      assert Pow(a, e) == a * s;
      OddStep(a, r, Pow(b, h), s, p);
    } else {
      assert Pow(a, e) == s;
      MulCongruent(r, r, Pow(b, h), s, p);
    }
    hide *;
  }

  lemma SquaredBase(a: nat, h: nat, p: nat)
    requires p > 1
    ensures Pow(a * a % p, h) % p == Pow(a, 2 * h) % p
  {
    PowCongruent(a * a % p, a * a, h, p);
    PowSquare(a, h);
  }

  lemma OddStep(a: nat, r: nat, t: int, s: int, p: nat)
    requires p > 1 && t % p == s % p
    ensures ((a * r % p) * t) % p == (r * (a * s)) % p
  {
    MulCongruent(a * r % p, a * r, t, s, p);
    Reorder(a, r, s);
  }

  lemma Reorder(x: int, y: int, z: int)
    ensures (x * y) * z == x * (y * z) == y * (x * z)
  {
  }

  // ---- Primes and inverses ----

  ghost predicate IsPrime(p: nat) {
    p > 1 && forall d :: 1 < d < p ==> p % d != 0
  }

  /** An inverse modulo a prime, by the descent p = q*a + r. */
  ghost function Inverse(a: nat, p: nat): (x: int)
    requires IsPrime(p) && 0 < a < p
    ensures (a * x) % p == 1
    decreases a
  {
    if a == 1 then 1
    else
      var q, r := p / a, p % a;
      RemainderNotZero(a, p);
      var y := Inverse(r, p);
      var x := -q * y;
      InverseStep(a, q, r, y, p);
      x
  }

  lemma RemainderNotZero(a: nat, p: nat)
    requires IsPrime(p) && 1 < a < p
    ensures 0 < p % a < a && p == p / a * a + p % a && p > 1
  {
  }

  lemma InverseStep(a: nat, q: int, r: int, y: int, p: nat)
    requires p > 1 && p == q * a + r && (r * y) % p == 1
    ensures (a * (-q * y)) % p == 1
  {
    assert a * (-q * y) == r * y + (-y) * p;
    ModShift(r * y, -y, p);
  }

  /** Euclid's lemma: modulo a prime, a factor that is not zero can be cancelled. */
  lemma CancelModPrime(a: int, b: int, c: int, p: nat)
    requires IsPrime(p) && a % p != 0 && (a * b) % p == (a * c) % p
    ensures b % p == c % p
  {
    var x := Inverse(a % p, p);
    MulMod(a, x, p);
    CancelWithInverse(a, b, x, p);
    CancelWithInverse(a, c, x, p);
    MulCongruent(x, x, a * b, a * c, p);
  }

  lemma CancelWithInverse(a: int, b: int, x: int, p: nat)
    requires p > 1 && (a * x) % p == 1
    ensures (x * (a * b)) % p == b % p
  {
    assert x * (a * b) == (a * x) * b;
    MulMod(a * x, b, p);
  }

  // ---- Fermat's little theorem ----

  function Factorial(n: nat): nat {
    if n == 0 then 1 else n * Factorial(n - 1)
  }

  lemma {:induction false} FactorialNotZero(n: nat, p: nat)
    requires IsPrime(p) && n < p
    ensures Factorial(n) % p != 0
  {
    if n > 0 {
      FactorialNotZero(n - 1, p);
      ProductNotZero(n, Factorial(n - 1), p);
    }
  }

  lemma ProductNotZero(a: nat, b: int, p: nat)
    requires IsPrime(p) && 0 < a < p && b % p != 0
    ensures (a * b) % p != 0
  {
    assert IsPrime(p) ==> p > 1;
    hide IsPrime;
    if (a * b) % p == 0 {
      CancelModPrime(a, b, 0, p);
    }
  }

  function Prod(s: seq<nat>): nat {
    if s == [] then 1 else s[0] * Prod(s[1..])
  }

  lemma {:induction false} ProdConcat(s: seq<nat>, t: seq<nat>)
    ensures Prod(s + t) == Prod(s) * Prod(t)
  {
    if s == [] {
      assert s + t == t;
    } else {
      assert (s + t)[1..] == s[1..] + t;
      ProdConcat(s[1..], t);
      assert s[0] * (Prod(s[1..]) * Prod(t)) == (s[0] * Prod(s[1..])) * Prod(t);
    }
  }

  ghost predicate Distinct(s: seq<nat>) {
    forall i, j :: 0 <= i < j < |s| ==> s[i] != s[j]
  }

  /** A sequence of n distinct numbers from 1..n multiplies to n!. */
  lemma {:induction false} DistinctProduct(s: seq<nat>, n: nat)
    requires |s| == n && Distinct(s) && Within(s, n)
    ensures Prod(s) == Factorial(n)
  {
    if n > 0 {
      var k := IndexOfLargest(s, n);
      var rest := s[..k] + s[k + 1..];
      ProdRemove(s, k);
      DistinctProduct(rest, n - 1);
    }
  }

  lemma ProdRemove(s: seq<nat>, k: nat)
    requires k < |s|
    ensures Prod(s) == s[k] * Prod(s[..k] + s[k + 1..])
  {
    assert s == s[..k] + ([s[k]] + s[k + 1..]);
    hide *;
    ProdMiddle(s[..k], s[k], s[k + 1..]);
  }

  lemma ProdMiddle(left: seq<nat>, x: nat, right: seq<nat>)
    ensures Prod(left + ([x] + right)) == x * Prod(left + right)
  {
    ProdFirst(x, right);
    hide *;
    ProdConcat(left, [x] + right);
    ProdConcat(left, right);
    Reorder(Prod(left), x, Prod(right));
  }

  lemma ProdFirst(x: nat, right: seq<nat>)
    ensures Prod([x] + right) == x * Prod(right)
  {
    assert ([x] + right)[1..] == right;
  }

  ghost predicate Within(s: seq<nat>, n: nat) {
    forall i :: 0 <= i < |s| ==> 1 <= s[i] <= n
  }

  function Head(s: seq<nat>): nat { if s == [] then 0 else s[0] }

  /** Pigeonhole: distinct numbers from 1..m number at most m. */
  lemma {:induction false} AtMost(s: seq<nat>, m: nat)
    requires Distinct(s) && Within(s, m)
    ensures |s| <= m
  {
    if m == 0 {
      var _ := Head(s);
    } else if k :| 0 <= k < |s| && s[k] == m {
      AtMost(s[..k] + s[k + 1..], m - 1);
    } else {
      AtMost(s, m - 1);
    }
  }

  lemma IndexOfLargest(s: seq<nat>, n: nat) returns (k: nat)
    requires |s| == n > 0 && Distinct(s) && Within(s, n)
    ensures k < n && s[k] == n
  {
    if forall i :: 0 <= i < n ==> s[i] != n {
      AtMost(s, n - 1);
    }
    k :| 0 <= k < n && s[k] == n;
  }

  function Multiple(a: nat, k: nat, p: nat): nat
    requires p > 0
  {
    (a * k) % p
  }

  function Multiples(a: nat, n: nat, p: nat): (s: seq<nat>)
    requires p > 0
    ensures |s| == n
  {
    seq(n, i requires 0 <= i < n => Multiple(a, i + 1, p))
  }

  lemma MultiplesDiffer(a: nat, i: nat, j: nat, p: nat)
    requires IsPrime(p) && a % p != 0 && i < p && j < p && i != j
    ensures Multiple(a, i, p) != Multiple(a, j, p)
  {
    if (a * i) % p == (a * j) % p {
      CancelModPrime(a, i, j, p);
      DivModUnique(p, 0, i);
      DivModUnique(p, 0, j);
    }
  }

  lemma MultiplesDistinct(a: nat, p: nat)
    requires IsPrime(p) && a % p != 0
    ensures var s := Multiples(a, p - 1, p); Distinct(s) && Within(s, p - 1)
  {
    var s := Multiples(a, p - 1, p);
    assert Multiple(a, 0, p) == 0;
    hide IsPrime, Multiple;
    forall i, j | 0 <= i < j < |s| ensures s[i] != s[j] {
      MultiplesDiffer(a, i + 1, j + 1, p);
    }
    forall i | 0 <= i < |s| ensures 1 <= s[i] <= p - 1 {
      MultiplesDiffer(a, i + 1, 0, p);
    }
  }

  lemma {:induction false} MultiplesProduct(a: nat, n: nat, p: nat)
    requires p > 1
    ensures Prod(Multiples(a, n, p)) % p == (Pow(a, n) * Factorial(n)) % p
  {
    if n > 0 {
      var s, last := Multiples(a, n - 1, p), (a * n) % p;
      assert Multiples(a, n, p) == s + [last];
      ProdConcat(s, [last]);
      assert Prod([last]) == last;
      MultiplesProduct(a, n - 1, p);
      MultiplesStep(a, n, Prod(s), Pow(a, n - 1), Factorial(n - 1), p);
    }
  }

  lemma MultiplesStep(a: int, n: int, prod: int, pow: int, fact: int, p: nat)
    requires p > 1 && prod % p == (pow * fact) % p
    ensures (prod * ((a * n) % p)) % p == ((a * pow) * (n * fact)) % p
  {
    MulCongruent(prod, pow * fact, (a * n) % p, a * n, p);
    FourFactors(pow, fact, a, n);
  }

  lemma FourFactors(w: int, x: int, y: int, z: int)
    ensures (w * x) * (y * z) == (y * w) * (z * x)
  {
  }

  lemma CancelFactor(f: nat, x: int, p: nat)
    requires IsPrime(p) && f % p != 0 && (x * f) % p == f % p
    ensures x % p == 1
  {
    assert x * f == f * x;
    CancelModPrime(f, x, 1, p);
  }

  /** Fermat's little theorem. */
  lemma Fermat(a: nat, p: nat)
    requires IsPrime(p) && a % p != 0
    ensures Pow(a, p - 1) % p == 1
  {
    MultiplesDistinct(a, p);
    DistinctProduct(Multiples(a, p - 1, p), p - 1);
    MultiplesProduct(a, p - 1, p);
    FactorialNotZero(p - 1, p);
    hide *;
    CancelFactor(Factorial(p - 1), Pow(a, p - 1), p);
  }

  /** `modinv`: the inverse as a power. */
  method ModInv(a: nat, p: nat) returns (r: nat)
    requires IsPrime(p) && a % p != 0
    ensures r < p && (a * r) % p == 1
  {
    r := ModPow(a, p - 2, p);
    MulMod(a, Pow(a, p - 2), p);
    Fermat(a, p);
  }
}
