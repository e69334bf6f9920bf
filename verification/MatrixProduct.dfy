/** The product of two encrypted d by d matrices by masks and rotations: sigma and tau permute the
    operands with their diagonals, phi shifts columns, and d masked rotations sum to the product. */
module MatrixProduct {
  import opened Options
  import opened Layout
  import opened Slots

  /** Slots of a row-major d by d matrix. */
  function Size(d: nat): nat { Flat(d, d) }

  function At(v: Slots, d: nat, a: nat, b: nat): real
    requires a < d && b < d && |v| == Size(d)
  {
    PosInside(a, b, d, d);
    v[Pos(a, b, d)]
  }

  // ---- Where the permutations send a position ----

  /** (a + b) mod d for a, b below d. */
  function Wrap(a: nat, b: nat, d: nat): (c: nat)
    requires a < d && b < d
    ensures c < d && c == (a + b) % d
  {
    Cyclic(a + b, d);
    if a + b < d then a + b else a + b - d
  }

  /** Sigma takes slot (a, b) from (a, a + b). */
  function SigmaColumn(d: nat, p: nat): (q: nat)
    requires p < Size(d)
    ensures q < Size(d)
  {
    PosOf(p, d, d);
    PosInside(p / d, Wrap(p / d, p % d, d), d, d);
    Pos(p / d, Wrap(p / d, p % d, d), d)
  }

  /** Tau takes it from (a + b, b). */
  function TauColumn(d: nat, p: nat): (q: nat)
    requires p < Size(d)
    ensures q < Size(d)
  {
    PosOf(p, d, d);
    PosInside(Wrap(p / d, p % d, d), p % d, d, d);
    Pos(Wrap(p / d, p % d, d), p % d, d)
  }

  function Unit(hit: bool): real { if hit then 1.0 else 0.0 }

  /** Diagonal s of a permutation matrix with ones at (p, column(p)). */
  function SigmaDiagonal(d: nat, s: nat): (v: Slots)
    ensures |v| == Size(d) && forall p :: 0 <= p < Size(d) ==> v[p] == Unit((p + s) % Size(d) == SigmaColumn(d, p))
  {
    seq(Size(d), p requires 0 <= p < Size(d) => Unit((p + s) % Size(d) == SigmaColumn(d, p)))
  }

  function TauDiagonal(d: nat, s: nat): (v: Slots)
    ensures |v| == Size(d) && forall p :: 0 <= p < Size(d) ==> v[p] == Unit((p + s) % Size(d) == TauColumn(d, p))
  {
    seq(Size(d), p requires 0 <= p < Size(d) => Unit((p + s) % Size(d) == TauColumn(d, p)))
  }

  /** Phi splits a column shift by i into the columns that stay in their row and those that wrap. */
  function PhiDiagonal(d: nat, i: nat, wraps: bool): (v: Slots)
    requires d > 0
    ensures |v| == Size(d) && forall p :: 0 <= p < Size(d) ==> v[p] == Unit(wraps == (p % d + i >= d))
  {
    seq(Size(d), p requires 0 <= p < Size(d) => Unit(wraps == (p % d + i >= d)))
  }

  // ---- Which diagonals are not zero ----

  /** How far sigma moves slot p: forward by a, or back by d - a when that leaves the row. */
  function SigmaShift(d: nat, p: nat): (t: int)
    requires p < Size(d)
    ensures 0 - d < t < d && p + t == SigmaColumn(d, p)
  {
    PosOf(p, d, d);
    var a, b := p / d, p % d;
    assert p == Flat(a, d) + b;
    if a + b < d then a else a - d
  }

  lemma SizeAtLeast(d: nat)
    ensures d > 0 ==> Size(d) >= 2 * d - 1
  {
    if d > 0 {
      FlatInside(0, d, d);
      assert Flat(0, d) == 0;
      if d > 1 {
        FlatInside(1, d, d);
        FlatStep(0, d);
      }
    }
  }

  /** Slot p of a diagonal at distance t is one exactly when t is the distance sigma moves p. */
  lemma SigmaAt(d: nat, p: nat, t: int)
    requires p < Size(d) && 0 - d < t < d
    ensures (p + t) % Size(d) == SigmaColumn(d, p) <==> t == SigmaShift(d, p)
  {
    SizeAtLeast(d);
    Cyclic(p + t, Size(d));
    hide SigmaColumn, SigmaShift, Size;
  }

  lemma CyclicSame(p: nat, s: nat, n: nat)
    requires n > 0 && p < n && s < n
    ensures (p + s) % n == (p + (s - n)) % n
  {
    Cyclic(p + s, n);
    Cyclic(p + (s - n), n);
  }

  lemma SigmaEntry(d: nat, p: nat, s: nat)
    requires p < Size(d) && s < Size(d)
    ensures SigmaDiagonal(d, s)[p] == Unit((s < d && s == SigmaShift(d, p)) || (s > Size(d) - d && s - Size(d) == SigmaShift(d, p)))
  {
    var n, t := Size(d), SigmaShift(d, p);
    assert SigmaDiagonal(d, s)[p] == Unit((p + s) % n == SigmaColumn(d, p)) && SigmaColumn(d, p) == p + t;
    SizeAtLeast(d);
    hide SigmaDiagonal, SigmaColumn, SigmaShift, Size;
    if s < d {
      SigmaAt(d, p, s);
    } else if s > n - d {
      SigmaAt(d, p, s - n);
      CyclicSame(p, s, n);
    } else {
      FarAway(p, s, t, n, d);
    }
  }

  lemma FarAway(p: nat, s: nat, t: int, n: nat, d: nat)
    requires p < n && d <= s <= n - d && 0 - d < t < d
    ensures (p + s) % n != p + t
  {
    Cyclic(p + s, n);
  }

  /** The nonzero sigma diagonals are exactly those the product uses: 0..d-1 and the last d-1. */
  lemma SigmaDiagonalsUsed(d: nat, s: nat)
    requires s < Size(d)
    ensures (exists p :: 0 <= p < Size(d) && SigmaDiagonal(d, s)[p] != 0.0) <==> s < d || s > Size(d) - d
  {
    forall p | 0 <= p < Size(d) ensures SigmaDiagonal(d, s)[p] != 0.0 ==> s < d || s > Size(d) - d {
      SigmaEntry(d, p, s);
    }
    SizeAtLeast(d);
    if s < d {
      PosInside(s, 0, d, d);
      PosDivMod(s, 0, d);
      SigmaEntry(d, Pos(s, 0, d), s);
    } else if s > Size(d) - d {
      var a: nat := d - (Size(d) - s);
      PosInside(a, d - 1, d, d);
      PosDivMod(a, d - 1, d);
      SigmaEntry(d, Pos(a, d - 1, d), s);
    }
  }
  /** Rotating by i rows keeps the column. */
  lemma RowRotation(d: nat, p: nat, i: nat)
    requires p < Size(d) && i < d
    ensures p / d < d && p % d < d && (p + Flat(i, d)) % Size(d) == Pos(Wrap(p / d, i, d), p % d, d) < Size(d)
  {
    PosOf(p, d, d);
    var a, b := p / d, p % d;
    FlatAdd(a, i, d);
    if a + i < d {
      PosInside(a + i, b, d, d);
    } else {
      FlatAdd(a + i - d, d, d);
      PosInside(a + i - d, b, d, d);
    }
    Cyclic(p + Flat(i, d), Size(d)) by { PosInside(i, 0, d, d); }
    hide Flat;
  }

  lemma FlatAdd(x: nat, y: nat, w: nat)
    ensures Flat(x + y, w) == Flat(x, w) + Flat(y, w)
  {
  }

  lemma PosSame(x: nat, y: nat, b: nat, w: nat)
    requires b < w
    ensures Pos(x, b, w) == Pos(y, b, w) <==> x == y
  {
    PosDivMod(x, b, w);
    PosDivMod(y, b, w);
  }

  /** Slot p of the i-th used tau diagonal is one exactly when p is in column i. */
  lemma TauAt(d: nat, p: nat, i: nat)
    requires p < Size(d) && i < d
    ensures (p + Flat(i, d)) % Size(d) == TauColumn(d, p) <==> i == p % d
  {
    PosOf(p, d, d);
    RowRotation(d, p, i);
    PosSame(Wrap(p / d, i, d), Wrap(p / d, p % d, d), p % d, d);
    hide Flat, Pos;
  }

  // ---- Precomputation ----

  /** A vector of plaintext pointers stays null where nothing was encoded. */
  datatype Precomputations = Precomputations(
    rowSize: nat, sigma: seq<Option<Slots>>, tau: seq<Option<Slots>>, phi: seq<(Slots, Slots)>)

  ghost predicate Ready(pre: Precomputations, d: nat) {
    && d > 0 && pre.rowSize == d && |pre.sigma| == |pre.tau| == Size(d) && |pre.phi| == d
    && (forall s :: 0 <= s < Size(d) && (s < d || s > Size(d) - d) ==> pre.sigma[s] == Some(SigmaDiagonal(d, s)))
    && (forall i :: 0 <= i < d ==> Flat(i, d) < Size(d) && pre.tau[Flat(i, d)] == Some(TauDiagonal(d, Flat(i, d))))
    && (forall i :: 0 <= i < d ==> pre.phi[i] == (PhiDiagonal(d, i, false), PhiDiagonal(d, i, true)))
  }

  method GetSigmaPermutationMatrix(d: nat) returns (sigma: array2<real>)
    ensures sigma.Length0 == sigma.Length1 == Size(d) && fresh(sigma)
    ensures forall p, q :: 0 <= p < Size(d) && 0 <= q < Size(d) ==> sigma[p, q] == Unit(q == SigmaColumn(d, p))
  {
    sigma := new real[Size(d), Size(d)]((p, q) => 0.0);
    for i := 0 to d
      invariant forall p, q :: 0 <= p < Size(d) && 0 <= q < Size(d) ==> sigma[p, q] == if p < Flat(i, d) then Unit(q == SigmaColumn(d, p)) else 0.0
    {
      FlatStep(i, d);
      for j := 0 to d
        invariant forall p, q :: 0 <= p < Size(d) && 0 <= q < Size(d) ==> sigma[p, q] == if p < Flat(i, d) + j then Unit(q == SigmaColumn(d, p)) else 0.0
      {
        PosInside(i, j, d, d);
        PosDivMod(i, j, d);
        PosInside(i, Wrap(i, j, d), d, d);
        hide Flat;
        var row, column := Pos(i, j, d), Pos(i, (i + j) % d, d);
        assert column == SigmaColumn(d, row);
        sigma[row, column] := 1.0;
      }
    }
  }

  method GetTauPermutationMatrix(d: nat) returns (tau: array2<real>)
    ensures tau.Length0 == tau.Length1 == Size(d) && fresh(tau)
    ensures forall p, q :: 0 <= p < Size(d) && 0 <= q < Size(d) ==> tau[p, q] == Unit(q == TauColumn(d, p))
  {
    tau := new real[Size(d), Size(d)]((p, q) => 0.0);
    for i := 0 to d
      invariant forall p, q :: 0 <= p < Size(d) && 0 <= q < Size(d) ==> tau[p, q] == if p < Flat(i, d) then Unit(q == TauColumn(d, p)) else 0.0
    {
      FlatStep(i, d);
      for j := 0 to d
        invariant forall p, q :: 0 <= p < Size(d) && 0 <= q < Size(d) ==> tau[p, q] == if p < Flat(i, d) + j then Unit(q == TauColumn(d, p)) else 0.0
      {
        PosInside(i, j, d, d);
        PosDivMod(i, j, d);
        PosInside(Wrap(i, j, d), j, d, d);
        hide Flat;
        var row, column := Pos(i, j, d), Pos((i + j) % d, j, d);
        assert column == TauColumn(d, row);
        tau[row, column] := 1.0;
      }
    }
  }

  /** Diagonal j starts in row 0 at column j and wraps around the columns. */
  method GetDiagonals(matrix: array2<real>) returns (diagonals: seq<seq<real>>)
    ensures matrix.Length0 == 0 ==> diagonals == []
    ensures matrix.Length0 > 0 ==> |diagonals| == matrix.Length1
    ensures forall j :: 0 <= j < |diagonals| ==> |diagonals[j]| == matrix.Length0
    ensures forall i, j :: 0 <= j < |diagonals| && 0 <= i < matrix.Length0 ==> diagonals[j][i] == matrix[i, (i + j) % matrix.Length1]
  {
    diagonals := [];
    if matrix.Length0 == 0 {
      return;
    }
    for j := 0 to matrix.Length1
      invariant |diagonals| == j
      invariant forall k :: 0 <= k < j ==> |diagonals[k]| == matrix.Length0
      invariant forall i, k :: 0 <= k < j && 0 <= i < matrix.Length0 ==> diagonals[k][i] == matrix[i, (i + k) % matrix.Length1]
    {
      var diagonal: seq<real> := [];
      for i := 0 to matrix.Length0
        invariant |diagonal| == i
        invariant forall k :: 0 <= k < i ==> diagonal[k] == matrix[k, (k + j) % matrix.Length1]
      {
        diagonal := diagonal + [matrix[i, (i + j) % matrix.Length1]];
      }
      diagonals := diagonals + [diagonal];
    }
  }

  method GetPhiDiagonals(d: nat, numRotations: nat) returns (stay: Slots, wrap: Slots)
    requires d > 0 && numRotations < d
    ensures stay == PhiDiagonal(d, numRotations, false) && wrap == PhiDiagonal(d, numRotations, true)
  {
    stay, wrap := seq(Size(d), _ => 0.0), seq(Size(d), _ => 0.0);
    for i := 0 to Size(d)
      invariant |stay| == Size(d) && forall p :: 0 <= p < Size(d) ==> stay[p] == if p < i then PhiDiagonal(d, numRotations, false)[p] else 0.0
    {
      if i % d < d - numRotations {
        stay := stay[i := 1.0];
      }
    }
    for i := 0 to Size(d)
      invariant |wrap| == Size(d) && forall p :: 0 <= p < Size(d) ==> wrap[p] == if p < i then PhiDiagonal(d, numRotations, true)[p] else 0.0
    {
      if d - numRotations <= i % d && i % d < d {
        wrap := wrap[i := 1.0];
      }
    }
  }
  method GetMatrixMatrixProductPrecomputations(d: nat) returns (pre: Precomputations)
    requires d > 0
    ensures Ready(pre, d)
  {
    SizeAtLeast(d);
    var sigmaMatrix := GetSigmaPermutationMatrix(d);
    var sigmaDiagonals := GetDiagonals(sigmaMatrix);
    var tauMatrix := GetTauPermutationMatrix(d);
    var tauDiagonals := GetDiagonals(tauMatrix);
    DiagonalsAre(d, sigmaDiagonals, tauDiagonals);
    hide SigmaDiagonal, TauDiagonal, SigmaColumn, TauColumn;

    var sigma: seq<Option<Slots>> := seq(Size(d), _ => None);
    for i := 0 to d
      invariant |sigma| == Size(d) && forall s :: 0 <= s < i ==> sigma[s] == Some(SigmaDiagonal(d, s))
    {
      sigma := sigma[i := Some(sigmaDiagonals[i])];
    }
    for i := Size(d) - d to Size(d)
      invariant |sigma| == Size(d) && forall s :: 0 <= s < i && (s < d || s >= Size(d) - d) ==> sigma[s] == Some(SigmaDiagonal(d, s))
    {
      sigma := sigma[i := Some(sigmaDiagonals[i])];
    }
    var tau := EncodeTau(d, tauDiagonals);
    var phi: seq<(Slots, Slots)> := [];
    for i := 0 to d
      invariant |phi| == i && forall k :: 0 <= k < i ==> phi[k] == (PhiDiagonal(d, k, false), PhiDiagonal(d, k, true))
    {
      var stay, wrap := GetPhiDiagonals(d, i);
      phi := phi + [(stay, wrap)];
    }
    pre := Precomputations(d, sigma, tau, phi);
  }

  lemma DiagonalsAre(d: nat, sigma: seq<Slots>, tau: seq<Slots>)
    requires |sigma| == |tau| == Size(d)
    requires forall j :: 0 <= j < Size(d) ==> |sigma[j]| == |tau[j]| == Size(d)
    requires forall i, j :: 0 <= j < Size(d) && 0 <= i < Size(d) ==> sigma[j][i] == Unit((i + j) % Size(d) == SigmaColumn(d, i))
    requires forall i, j :: 0 <= j < Size(d) && 0 <= i < Size(d) ==> tau[j][i] == Unit((i + j) % Size(d) == TauColumn(d, i))
    ensures forall j :: 0 <= j < Size(d) ==> sigma[j] == SigmaDiagonal(d, j) && tau[j] == TauDiagonal(d, j)
  {
  }

  /** Every d-th diagonal. */
  method EncodeTau(d: nat, diagonals: seq<Slots>) returns (tau: seq<Option<Slots>>)
    requires d > 0 && |diagonals| == Size(d) && forall j :: 0 <= j < Size(d) ==> diagonals[j] == TauDiagonal(d, j)
    ensures |tau| == Size(d) && forall i :: 0 <= i < d ==> Flat(i, d) < Size(d) && tau[Flat(i, d)] == Some(TauDiagonal(d, Flat(i, d)))
  {
    tau := seq(Size(d), _ => None);
    var at := 0;
    ghost var k := 0;
    FlatStep(0, d);
    hide TauDiagonal, Flat;
    while at < Size(d)
      invariant k <= d && at == Flat(k, d) && |tau| == Size(d)
      invariant forall i :: 0 <= i < k ==> Flat(i, d) < at && tau[Flat(i, d)] == Some(TauDiagonal(d, Flat(i, d)))
      decreases d - k
    {
      FlatStep(k, d);
      tau := tau[at := Some(diagonals[at])];
      at := at + d;
      k := k + 1;
    }
    forall i | 0 <= i < d ensures Flat(i, d) < Size(d) {
      FlatInside(i, d, d);
    }
  }

  // ---- The product ----

  /** Summand k of entry (a, b) of the product. */
  function Summand(m1: Slots, m2: Slots, d: nat, a: nat, b: nat, k: nat): real
    requires |m1| == |m2| == Size(d) && a < d && b < d && k < d
  {
    At(m1, d, a, k) * At(m2, d, k, b)
  }

  function Summands(m1: Slots, m2: Slots, d: nat, a: nat, b: nat): (t: seq<real>)
    requires |m1| == |m2| == Size(d) && a < d && b < d
    ensures |t| == d
  {
    seq(d, k requires 0 <= k < d => Summand(m1, m2, d, a, b, k))
  }

  /** The first linear transform once distances below i have been added. */
  ghost predicate SigmaUpTo(lt: Slots, m: Slots, d: nat, i: nat) {
    |lt| == |m| == Size(d)
    && forall p :: 0 <= p < Size(d) ==> lt[p] == if 0 - i < SigmaShift(d, p) < i then m[SigmaColumn(d, p)] else 0.0
  }

  ghost predicate TauUpTo(lt: Slots, m: Slots, d: nat, i: nat) {
    |lt| == |m| == Size(d)
    && forall p :: 0 <= p < Size(d) ==> lt[p] == if p % d < i then m[TauColumn(d, p)] else 0.0
  }

  /** One masked rotation by distance t, seen in slot p. */
  lemma SigmaTerm(m: Slots, d: nat, s: nat, t: int, p: nat)
    requires |m| == Size(d) && p < Size(d) && s < Size(d) && 0 - d < t < d && t == (if s < d then s else s - Size(d))
    ensures (p + t) % Size(d) < Size(d)
    ensures m[(p + t) % Size(d)] * SigmaDiagonal(d, s)[p] == if t == SigmaShift(d, p) then m[SigmaColumn(d, p)] else 0.0
  {
    SigmaAt(d, p, t);
    CyclicSame(p, s, Size(d));
    assert SigmaDiagonal(d, s)[p] == Unit((p + s) % Size(d) == SigmaColumn(d, p));
    Masked(SigmaDiagonal(d, s)[p], m[(p + t) % Size(d)]);
    hide SigmaDiagonal, SigmaColumn, SigmaShift, Size;
  }

  lemma AddSigma(lt: Slots, m: Slots, d: nat, i: nat, next: Slots)
    requires 0 < i < d && SigmaUpTo(lt, m, d, i) && Size(d) - i < Size(d)
    requires var first := Plus(lt, Times(Rotate(m, i), SigmaDiagonal(d, i)));
      next == Plus(first, Times(Rotate(m, 0 - i), SigmaDiagonal(d, Size(d) - i)))
    ensures SigmaUpTo(next, m, d, i + 1)
  {
    SizeAtLeast(d);
    hide SigmaDiagonal, SigmaColumn, SigmaShift, Size, Rotate, Times, Plus;
    forall p | 0 <= p < Size(d)
      ensures next[p] == if 0 - (i + 1) < SigmaShift(d, p) < i + 1 then m[SigmaColumn(d, p)] else 0.0
    {
      SigmaTerm(m, d, i, i, p);
      SigmaTerm(m, d, Size(d) - i, 0 - i, p);
    }
  }

  lemma AddTau(lt: Slots, m: Slots, d: nat, i: nat, next: Slots)
    requires i < d && TauUpTo(lt, m, d, i) && Flat(i, d) < Size(d)
    requires next == Plus(lt, Times(Rotate(m, Flat(i, d)), TauDiagonal(d, Flat(i, d))))
    ensures TauUpTo(next, m, d, i + 1)
  {
    hide TauColumn, Size, Flat;
    forall p | 0 <= p < Size(d)
      ensures next[p] == if p % d < i + 1 then m[TauColumn(d, p)] else 0.0
    {
      TauAt(d, p, i);
      Masked(TauDiagonal(d, Flat(i, d))[p], m[(p + Flat(i, d)) % Size(d)]);
    }
  }
  /** Each entry once its first i summands have been added, cyclically from column a + b on. */
  ghost predicate ProductUpTo(product: Slots, m1: Slots, m2: Slots, d: nat, i: nat) {
    i <= d && |product| == |m1| == |m2| == Size(d)
    && forall a, b :: 0 <= a < d && 0 <= b < d ==> At(product, d, a, b) == Sum(Turned(Summands(m1, m2, d, a, b), Wrap(a, b, d))[..i])
  }

  lemma WrapTwice(a: nat, b: nat, i: nat, d: nat)
    requires a < d && b < d && i < d
    ensures Wrap(Wrap(a, b, d), i, d) == Wrap(a, Wrap(b, i, d), d) == Wrap(Wrap(a, i, d), b, d)
  {
  }

  /** Position (a, b) of the full first transform holds entry (a, a + b) of the first matrix. */
  lemma SigmaReads(lt: Slots, m: Slots, d: nat, a: nat, b: nat)
    requires SigmaUpTo(lt, m, d, d) && a < d && b < d
    ensures |lt| == |m| == Size(d) && At(lt, d, a, b) == At(m, d, a, Wrap(a, b, d))
  {
    PosInside(a, b, d, d);
    PosDivMod(a, b, d);
    var p := Pos(a, b, d);
    assert 0 - d < SigmaShift(d, p) < d;
    hide Flat, SigmaShift;
  }

  lemma TauReads(lt: Slots, m: Slots, d: nat, a: nat, b: nat)
    requires TauUpTo(lt, m, d, d) && a < d && b < d
    ensures |lt| == |m| == Size(d) && At(lt, d, a, b) == At(m, d, Wrap(a, b, d), b)
  {
    PosInside(a, b, d, d);
    PosDivMod(a, b, d);
    hide Flat;
  }

  /** A rotation by i, or by i - d, seen from slot (a, b). */
  lemma ColumnRotation(v: Slots, d: nat, a: nat, b: nat, i: nat)
    requires |v| == Size(d) && a < d && b < d && i < d
    ensures b + i < d ==> At(Rotate(v, i), d, a, b) == At(v, d, a, b + i)
    ensures b + i >= d ==> At(Rotate(v, i - d), d, a, b) == At(v, d, a, b + i - d)
  {
    PosInside(a, b, d, d);
    var p, n := Pos(a, b, d), Size(d);
    SizeAtLeast(d);
    if b + i < d {
      PosInside(a, b + i, d, d);
      Cyclic(p + i, n);
    } else {
      PosInside(a, b + i - d, d, d);
      Cyclic(p + (i - d), n);
    }
    hide Flat, Size;
  }

  lemma PhiAt(d: nat, i: nat, wraps: bool, a: nat, b: nat)
    requires a < d && b < d
    ensures At(PhiDiagonal(d, i, wraps), d, a, b) == Unit(wraps == (b + i >= d))
  {
    PosInside(a, b, d, d);
    PosDivMod(a, b, d);
    hide Flat, Pos;
  }

  lemma AtTimes(u: Slots, v: Slots, d: nat, a: nat, b: nat)
    requires |u| == |v| == Size(d) && a < d && b < d
    ensures At(Times(u, v), d, a, b) == At(u, d, a, b) * At(v, d, a, b)
    ensures At(Plus(u, v), d, a, b) == At(u, d, a, b) + At(v, d, a, b)
  {
    PosInside(a, b, d, d);
    hide Pos, Size;
  }

  /** Columns shifted by i, slot (a, b): the two masked rotations together read column b + i of row a. */
  lemma PhiReads(lt: Slots, m: Slots, d: nat, i: nat, a: nat, b: nat)
    requires SigmaUpTo(lt, m, d, d) && i < d && a < d && b < d && |lt| == |m| == Size(d)
    ensures At(Plus(Times(Rotate(lt, i), PhiDiagonal(d, i, false)), Times(Rotate(lt, i - d), PhiDiagonal(d, i, true))), d, a, b)
         == At(m, d, a, Wrap(Wrap(a, b, d), i, d))
  {
    hide *;
    SizeAtLeast(d);
    var stay, wrap := PhiDiagonal(d, i, false), PhiDiagonal(d, i, true);
    var u, v := Rotate(lt, i), Rotate(lt, i - d);
    WrapTwice(a, b, i, d);
    SigmaReads(lt, m, d, a, Wrap(b, i, d));
    ColumnRotation(lt, d, a, b, i);
    PhiAt(d, i, false, a, b);
    PhiAt(d, i, true, a, b);
    AtTimes(u, stay, d, a, b);
    AtTimes(v, wrap, d, a, b);
    AtTimes(Times(u, stay), Times(v, wrap), d, a, b);
    UnitIs(b + i >= d);
    WrapIs(b, i, d);
    Masked(At(stay, d, a, b), At(u, d, a, b));
    Masked(At(wrap, d, a, b), At(v, d, a, b));
  }

  lemma UnitIs(wraps: bool)
    ensures Unit(true == wraps) == (if wraps then 1.0 else 0.0) && Unit(false == wraps) == if wraps then 0.0 else 1.0
  {
  }

  lemma WrapIs(b: nat, i: nat, d: nat)
    requires b < d && i < d
    ensures Wrap(b, i, d) == if b + i < d then b + i else b + i - d
  {
  }

  lemma PsiReads(lt: Slots, m: Slots, d: nat, i: nat, a: nat, b: nat)
    requires TauUpTo(lt, m, d, d) && i < d && a < d && b < d && |lt| == |m| == Size(d)
    ensures At(Rotate(lt, Flat(i, d)), d, a, b) == At(m, d, Wrap(Wrap(a, b, d), i, d), b)
  {
    PosInside(a, b, d, d);
    PosDivMod(a, b, d);
    RowRotation(d, Pos(a, b, d), i);
    WrapTwice(a, b, i, d);
    TauReads(lt, m, d, Wrap(a, i, d), b);
    assert At(Rotate(lt, Flat(i, d)), d, a, b) == lt[(Pos(a, b, d) + Flat(i, d)) % Size(d)];
    hide Flat, TauUpTo, Pos, Wrap;
  }

  lemma TurnedAt(t: seq<real>, c: nat, i: nat)
    requires c < |t| && i < |t|
    ensures Turned(t, c)[i] == t[Wrap(c, i, |t|)]
  {
  }

  lemma NextSummand(m1: Slots, m2: Slots, d: nat, a: nat, b: nat, i: nat, sum: real, x: real, y: real)
    requires |m1| == |m2| == Size(d) && a < d && b < d && i < d
    requires sum == Sum(Turned(Summands(m1, m2, d, a, b), Wrap(a, b, d))[..i])
    requires x == At(m1, d, a, Wrap(Wrap(a, b, d), i, d)) && y == At(m2, d, Wrap(Wrap(a, b, d), i, d), b)
    ensures sum + x * y == Sum(Turned(Summands(m1, m2, d, a, b), Wrap(a, b, d))[..i + 1])
  {
    hide *;
    var t, c := Summands(m1, m2, d, a, b), Wrap(a, b, d);
    SummandAt(m1, m2, d, a, b, Wrap(c, i, d));
    TurnedAt(t, c, i);
    SumNext(Turned(t, c), i);
  }

  lemma SummandAt(m1: Slots, m2: Slots, d: nat, a: nat, b: nat, k: nat)
    requires |m1| == |m2| == Size(d) && a < d && b < d && k < d
    ensures Summands(m1, m2, d, a, b)[k] == At(m1, d, a, k) * At(m2, d, k, b)
  {
  }

  lemma FirstProduct(lt1: Slots, lt2: Slots, m1: Slots, m2: Slots, d: nat)
    requires d > 0 && SigmaUpTo(lt1, m1, d, d) && TauUpTo(lt2, m2, d, d)
    ensures |lt1| == |lt2| && ProductUpTo(Times(lt1, lt2), m1, m2, d, 1)
  {
    hide At, Sum, Turned, Summands, Wrap, SigmaColumn, SigmaShift, TauColumn, Size;
    forall a, b | 0 <= a < d && 0 <= b < d
      ensures At(Times(lt1, lt2), d, a, b) == Sum(Turned(Summands(m1, m2, d, a, b), Wrap(a, b, d))[..1])
    {
      SigmaReads(lt1, m1, d, a, b);
      TauReads(lt2, m2, d, a, b);
      AtTimes(lt1, lt2, d, a, b);
      hide *;
      WrapIs(Wrap(a, b, d), 0, d);
      var t := Turned(Summands(m1, m2, d, a, b), Wrap(a, b, d));
      assert t[..0] == [];
      EmptySum();
      NextSummand(m1, m2, d, a, b, 0, 0.0, At(lt1, d, a, b), At(lt2, d, a, b));
    }
  }

  lemma EmptySum()
    ensures Sum([]) == 0.0
  {
  }

  lemma AddEntry(product: Slots, m1: Slots, m2: Slots, d: nat, i: nat, phi: Slots, psi: Slots, a: nat, b: nat)
    requires i < d && a < d && b < d && |product| == |phi| == |psi| == |m1| == |m2| == Size(d)
    requires At(product, d, a, b) == Sum(Turned(Summands(m1, m2, d, a, b), Wrap(a, b, d))[..i])
    requires At(phi, d, a, b) == At(m1, d, a, Wrap(Wrap(a, b, d), i, d)) && At(psi, d, a, b) == At(m2, d, Wrap(Wrap(a, b, d), i, d), b)
    ensures At(Plus(product, Times(phi, psi)), d, a, b) == Sum(Turned(Summands(m1, m2, d, a, b), Wrap(a, b, d))[..i + 1])
  {
    hide *;
    AtTimes(phi, psi, d, a, b);
    AtTimes(product, Times(phi, psi), d, a, b);
    NextSummand(m1, m2, d, a, b, i, At(product, d, a, b), At(phi, d, a, b), At(psi, d, a, b));
  }

  lemma AddProduct(product: Slots, lt1: Slots, lt2: Slots, m1: Slots, m2: Slots, d: nat, i: nat, phi: Slots, psi: Slots)
    requires 0 < i < d && |lt1| == |lt2| == |m1| == |m2| == Size(d) && SigmaUpTo(lt1, m1, d, d) && TauUpTo(lt2, m2, d, d) && ProductUpTo(product, m1, m2, d, i)
    requires |lt1| > 0 && phi == Plus(Times(Rotate(lt1, i), PhiDiagonal(d, i, false)), Times(Rotate(lt1, i - d), PhiDiagonal(d, i, true)))
    requires psi == Rotate(lt2, Flat(i, d)) && |product| == Size(d)
    ensures ProductUpTo(Plus(product, Times(phi, psi)), m1, m2, d, i + 1)
  {
    hide At, Sum, Turned, Summands, Wrap, SigmaUpTo, TauUpTo, Size, PhiDiagonal, Rotate, Times, Plus, Flat;
    forall a, b | 0 <= a < d && 0 <= b < d
      ensures At(Plus(product, Times(phi, psi)), d, a, b) == Sum(Turned(Summands(m1, m2, d, a, b), Wrap(a, b, d))[..i + 1])
    {
      assert At(product, d, a, b) == Sum(Turned(Summands(m1, m2, d, a, b), Wrap(a, b, d))[..i]);
      hide *;
      PhiReads(lt1, m1, d, i, a, b);
      PsiReads(lt2, m2, d, i, a, b);
      AddEntry(product, m1, m2, d, i, phi, psi, a, b);
    }
  }

  /** Entry (a, b) of the matrix product. */
  function Entry(m1: Slots, m2: Slots, d: nat, a: nat, b: nat): real
    requires |m1| == |m2| == Size(d) && a < d && b < d
  {
    Sum(Summands(m1, m2, d, a, b))
  }

  /** All summands, in whatever cyclic order, make up the entry. */
  lemma AllSummands(product: Slots, m1: Slots, m2: Slots, d: nat)
    requires ProductUpTo(product, m1, m2, d, d)
    ensures forall a, b :: 0 <= a < d && 0 <= b < d ==> At(product, d, a, b) == Entry(m1, m2, d, a, b)
  {
    forall a, b | 0 <= a < d && 0 <= b < d ensures At(product, d, a, b) == Entry(m1, m2, d, a, b) {
      var t, c := Summands(m1, m2, d, a, b), Wrap(a, b, d);
      assert Turned(t, c)[..d] == Turned(t, c);
      SumTurned(t, c);
    }
  }

  /** Main result: masks, rotations and d slotwise products compute the matrix product. */
  method MatrixMatrixProductSquare(m1: Slots, m2: Slots, d: nat, pre: Precomputations) returns (product: Slots)
    requires |m1| == |m2| == Size(d) && Ready(pre, d)
    ensures |product| == Size(d) && forall a, b :: 0 <= a < d && 0 <= b < d ==> At(product, d, a, b) == Entry(m1, m2, d, a, b)
  {
    SizeAtLeast(d);
    var lt1 := FirstTransform(m1, d, pre);
    var lt2 := SecondTransform(m2, d, pre);
    FirstProduct(lt1, lt2, m1, m2, d);
    product := Times(lt1, lt2);
    for i := 1 to d
      invariant ProductUpTo(product, m1, m2, d, i)
    {
      FlatInside(i, d, d);
      assert pre.phi[i] == (PhiDiagonal(d, i, false), PhiDiagonal(d, i, true));
      assert |product| == |lt1| == |lt2| == Size(d);
      hide SigmaUpTo, TauUpTo, ProductUpTo, Flat, Ready;
      var rotated := Rotate(lt1, i);
      var product1 := Times(rotated, pre.phi[i].0);
      rotated := Rotate(lt1, i - d);
      var product2 := Times(rotated, pre.phi[i].1);
      var phi := Plus(product1, product2);
      var psi := Rotate(lt2, Flat(i, d));
      var next := Plus(product, Times(phi, psi));
      AddProduct(product, lt1, lt2, m1, m2, d, i, phi, psi);
      product := next;
    }
    AllSummands(product, m1, m2, d);
  }

  method FirstTransform(m: Slots, d: nat, pre: Precomputations) returns (lt: Slots)
    requires |m| == Size(d) && Ready(pre, d)
    ensures SigmaUpTo(lt, m, d, d)
  {
    SizeAtLeast(d);
    lt := Times(m, pre.sigma[0].value);
    StartSigma(lt, m, d);
    for i := 1 to d
      invariant SigmaUpTo(lt, m, d, i)
    {
      assert pre.sigma[i] == Some(SigmaDiagonal(d, i)) && pre.sigma[Size(d) - i] == Some(SigmaDiagonal(d, Size(d) - i));
      assert |lt| == Size(d);
      hide SigmaUpTo, Ready, Size;
      var rotated := Rotate(m, i);
      var term := Times(rotated, pre.sigma[i].value);
      var first := Plus(lt, term);
      rotated := Rotate(m, 0 - i);
      term := Times(rotated, pre.sigma[Size(d) - i].value);
      var next := Plus(first, term);
      AddSigma(lt, m, d, i, next);
      lt := next;
    }
  }

  lemma StartSigma(lt: Slots, m: Slots, d: nat)
    requires |m| == Size(d) && d > 0 && lt == Times(m, SigmaDiagonal(d, 0))
    ensures SigmaUpTo(lt, m, d, 1)
  {
    SizeAtLeast(d);
    hide SigmaDiagonal, SigmaColumn, SigmaShift, Size;
    forall p | 0 <= p < Size(d) ensures lt[p] == if SigmaShift(d, p) == 0 then m[SigmaColumn(d, p)] else 0.0 {
      SigmaTerm(m, d, 0, 0, p);
      Cyclic(p, Size(d));
    }
  }

  method SecondTransform(m: Slots, d: nat, pre: Precomputations) returns (lt: Slots)
    requires |m| == Size(d) && Ready(pre, d)
    ensures TauUpTo(lt, m, d, d)
  {
    SizeAtLeast(d);
    FlatStep(0, d);
    assert pre.tau[Flat(0, d)] == Some(TauDiagonal(d, 0));
    lt := Times(m, pre.tau[0].value);
    StartTau(lt, m, d);
    for i := 1 to d
      invariant TauUpTo(lt, m, d, i)
    {
      FlatInside(i, d, d);
      assert pre.tau[Flat(i, d)] == Some(TauDiagonal(d, Flat(i, d)));
      assert |lt| == Size(d);
      hide TauUpTo, Ready, Flat;
      var rotated := Rotate(m, Flat(i, d));
      var term := Times(rotated, pre.tau[Flat(i, d)].value);
      var next := Plus(lt, term);
      AddTau(lt, m, d, i, next);
      lt := next;
    }
  }

  lemma StartTau(lt: Slots, m: Slots, d: nat)
    requires |m| == Size(d) && d > 0 && lt == Times(m, TauDiagonal(d, 0))
    ensures TauUpTo(lt, m, d, 1)
  {
    FlatStep(0, d);
    hide TauColumn, Flat;
    forall p | 0 <= p < Size(d) ensures lt[p] == if p % d < 1 then m[TauColumn(d, p)] else 0.0 {
      TauAt(d, p, 0);
      Cyclic(p, Size(d));
      Masked(TauDiagonal(d, 0)[p], m[p]);
    }
  }
}
