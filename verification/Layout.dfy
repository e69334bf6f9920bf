/** Row-major layout: where a row of width w starts. */
module Layout {

  function Flat(row: nat, w: nat): nat { row * w }

  lemma FlatStep(row: nat, w: nat)
    ensures Flat(0, w) == 0
    ensures Flat(row + 1, w) == Flat(row, w) + w
  {
  }

  /** A row ends before the next one starts. */
  lemma {:induction false} FlatInside(row: nat, rows: nat, w: nat)
    requires row < rows
    ensures Flat(row, w) + w == Flat(row + 1, w) <= Flat(rows, w)
  {
    FlatStep(row, w);
    hide Flat;
    if row + 1 < rows {
      FlatStep(rows - 1, w);
      FlatInside(row, rows - 1, w);
    }
  }
  /** Position of row a, column b. */
  function Pos(a: nat, b: nat, w: nat): nat { Flat(a, w) + b }

  lemma PosInside(a: nat, b: nat, rows: nat, w: nat)
    requires a < rows && b < w
    ensures Pos(a, b, w) < Flat(rows, w) && Flat(a, w) <= Flat(rows, w)
  {
    FlatInside(a, rows, w);
  }

  lemma {:induction false} PosDivMod(a: nat, b: nat, w: nat)
    requires b < w
    ensures Pos(a, b, w) / w == a && Pos(a, b, w) % w == b
  {
    DivMod(Pos(a, b, w), w, a, b);
  }

  /** Quotient and remainder are unique. */
  lemma DivMod(p: nat, w: nat, a: nat, b: nat)
    requires w > 0 && b < w && p == Flat(a, w) + b
    ensures p / w == a && p % w == b
  {
    var q, r := p / w, p % w;
    assert p == Flat(q, w) + r;
    if q < a {
      FlatInside(q, a, w);
    } else if a < q {
      FlatInside(a, q, w);
    }
  }

  lemma PosOf(p: nat, rows: nat, w: nat)
    requires p < Flat(rows, w) && w > 0
    ensures p / w < rows && p % w < w && p == Pos(p / w, p % w, w)
  {
    assert p == Flat(p / w, w) + p % w;
    if p / w >= rows {
      if p / w > rows {
        FlatInside(rows, p / w, w);
      }
    }
  }

  /** A cyclic index: at most one length off. */
  lemma Cyclic(p: int, n: nat)
    requires n > 0 && 0 - n <= p < 2 * n
    ensures p % n == if p < 0 then p + n else if p < n then p else p - n
  {
  }
  /** Blocks needed to cover n rows or columns. */
  function BlocksFor(n: nat, size: nat): (count: nat)
    requires size > 0
    ensures n <= Flat(count, size)
    ensures n > 0 ==> count > 0 && Flat(count - 1, size) < n
  {
    var count := (n + size - 1) / size;
    Ceiling(n, size, count);
    count
  }

  lemma Ceiling(n: nat, size: nat, count: int)
    requires size > 0 && count == (n + size - 1) / size
    ensures count >= 0 && n <= count * size && (n > 0 ==> count > 0 && (count - 1) * size < n)
  {
    var r := (n + size - 1) % size;
    assert n + size - 1 == count * size + r;
  }
}
