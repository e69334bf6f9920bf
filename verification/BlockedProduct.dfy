/** Products of matrices of any size, cut into zero-padded d by d blocks, multiplied block by block and
    put together again: the same as the plain triple loop on the padded matrices. */
module BlockedProduct {
  import opened Options
  import opened Extrema
  import opened Layout
  import opened Slots
  import opened MatrixProduct

  type Matrix = seq<seq<real>>
  type Blocks = seq<seq<Slots>>

  ghost predicate Rect(m: Matrix, rows: nat, cols: nat) {
    |m| == rows && forall i :: 0 <= i < rows ==> |m[i]| == cols
  }

  // ---- The plain product ----

  function DotTerms(m1: Matrix, m2: Matrix, i: nat, j: nat): (t: seq<real>)
    requires i < |m1| && |m2| <= |m1[i]| && forall k :: 0 <= k < |m2| ==> j < |m2[k]|
    ensures |t| == |m2|
  {
    seq(|m2|, k requires 0 <= k < |m2| => m1[i][k] * m2[k][j])
  }

  /** The triple loop. */
  method ClearMM(m1: Matrix, m2: Matrix, ghost inner: nat, ghost cols: nat) returns (product: Matrix)
    requires Rect(m1, |m1|, inner) && Rect(m2, inner, cols) && (|m1| > 0 ==> inner > 0)
    ensures Rect(product, |m1|, cols)
    ensures forall i, j :: 0 <= i < |m1| && 0 <= j < cols ==> product[i][j] == Sum(DotTerms(m1, m2, i, j))
  {
    product := [];
    for i := 0 to |m1|
      invariant Rect(product, i, cols)
      invariant forall r, c :: 0 <= r < i && 0 <= c < cols ==> product[r][c] == Sum(DotTerms(m1, m2, r, c))
    {
      var row: seq<real> := [];
      for j := 0 to |m2[0]|
        invariant |row| == j && forall c :: 0 <= c < j ==> row[c] == Sum(DotTerms(m1, m2, i, c))
      {
        var dotProd := 0.0;
        ghost var terms := DotTerms(m1, m2, i, j);
        for k := 0 to |m2|
          invariant dotProd == Sum(terms[..k])
        {
          SumNext(terms, k);
          dotProd := dotProd + m1[i][k] * m2[k][j];
        }
        assert terms[..|m2|] == terms;
        row := row + [dotProd];
      }
      product := product + [row];
    }
  }

  // ---- Cutting and putting together ----

  function PaddedAt(m: Matrix, cols: nat, i: nat, j: nat): real
    requires Rect(m, |m|, cols)
  {
    if i < |m| && j < cols then m[i][j] else 0.0
  }

  /** m filled up with zeros. */
  function Padded(m: Matrix, cols: nat, rows': nat, cols': nat): (p: Matrix)
    requires Rect(m, |m|, cols)
    ensures Rect(p, rows', cols')
    ensures forall i, j :: 0 <= i < rows' && 0 <= j < cols' ==> p[i][j] == PaddedAt(m, cols, i, j)
  {
    seq(rows', i requires 0 <= i < rows' => seq(cols', j requires 0 <= j < cols' => PaddedAt(m, cols, i, j)))
  }

  /** What a block holds: the entries from its offset on, row by row, zero outside the matrix. */
  ghost predicate IsBlock(vec: Slots, m: Matrix, cols: nat, rowSize: nat, colSize: nat, offsetRows: nat, offsetCols: nat)
    requires Rect(m, |m|, cols)
  {
    && |vec| >= Flat(rowSize, colSize)
    && (forall r, c :: 0 <= r < rowSize && 0 <= c < colSize ==> Entry2(vec, r, c, rowSize, colSize) == PaddedAt(m, cols, offsetRows + r, offsetCols + c))
    && (forall p :: Flat(rowSize, colSize) <= p < |vec| ==> vec[p] == 0.0)
  }

  function Entry2(vec: Slots, r: nat, c: nat, rowSize: nat, colSize: nat): real
    requires |vec| >= Flat(rowSize, colSize) && r < rowSize && c < colSize
  {
    PosInside(r, c, rowSize, colSize);
    vec[Pos(r, c, colSize)]
  }

  /** Zero-sized blocks are refused. The slots must hold the block, or the copy writes past them. */
  method ExtractAndLinearizeMatrixBlock(m: Matrix, ghost cols: nat, numSlots: nat, rowSize: nat, colSize: nat, offsetRows: nat, offsetCols: nat)
    returns (vec: Option<Slots>)
    requires Rect(m, |m|, cols) && numSlots >= Flat(rowSize, colSize)
    ensures vec.None? <==> rowSize == 0 || colSize == 0
    ensures vec.Some? ==> |vec.value| == numSlots && IsBlock(vec.value, m, cols, rowSize, colSize, offsetRows, offsetCols)
  {
    if rowSize == 0 || colSize == 0 {
      return None;
    }
    var v: Slots := seq(numSlots, _ => 0.0);
    if |m| == 0 || |m[0]| == 0 {
      ZeroBlock(v, m, cols, rowSize, colSize, offsetRows, offsetCols);
      return Some(v);
    }
    var endRows, endCols := Min(offsetRows + rowSize, |m|), Min(offsetCols + colSize, |m[0]|);
    StartBlock(v, m, cols, rowSize, colSize, offsetRows, offsetCols);
    var i := offsetRows;
    while i < endRows
      invariant offsetRows <= i && (i <= endRows || i == offsetRows)
      invariant |v| == numSlots && Copied(v, m, cols, rowSize, colSize, offsetRows, offsetCols, i - offsetRows, 0)
      decreases endRows - i
    {
      var r := i - offsetRows;
      var j := offsetCols;
      while j < endCols
        invariant offsetCols <= j && (j <= endCols || j == offsetCols)
        invariant |v| == numSlots && Copied(v, m, cols, rowSize, colSize, offsetRows, offsetCols, r, j - offsetCols)
        decreases endCols - j
      {
        var c := j - offsetCols;
        CopyOne(v, m, cols, rowSize, colSize, offsetRows, offsetCols, r, c);
        hide *;
        v := v[Pos(r, c, colSize) := m[i][j]];
        j := j + 1;
      }
      RowDone(v, m, cols, rowSize, colSize, offsetRows, offsetCols, r, j - offsetCols);
      i := i + 1;
    }
    BlockDone(v, m, cols, rowSize, colSize, offsetRows, offsetCols, i - offsetRows);
    vec := Some(v);
  }

  /** The rows before `rows`, and of that one the first `done` entries, have been copied; the rest is
      still zero. */
  ghost predicate Copied(v: Slots, m: Matrix, cols: nat, rowSize: nat, colSize: nat, offR: nat, offC: nat, rows: nat, done: nat)
    requires Rect(m, |m|, cols)
  {
    && |v| >= Flat(rowSize, colSize)
    && (forall r, c :: 0 <= r < rowSize && 0 <= c < colSize ==>
          Entry2(v, r, c, rowSize, colSize) == if r < rows || (r == rows && c < done) then PaddedAt(m, cols, offR + r, offC + c) else 0.0)
    && (forall p :: Flat(rowSize, colSize) <= p < |v| ==> v[p] == 0.0)
  }

  lemma ZeroBlock(v: Slots, m: Matrix, cols: nat, rowSize: nat, colSize: nat, offR: nat, offC: nat)
    requires Rect(m, |m|, cols) && (|m| == 0 || cols == 0) && |v| >= Flat(rowSize, colSize) && forall p :: 0 <= p < |v| ==> v[p] == 0.0
    ensures IsBlock(v, m, cols, rowSize, colSize, offR, offC)
  {
    hide Flat, Pos;
    forall r, c | 0 <= r < rowSize && 0 <= c < colSize ensures Entry2(v, r, c, rowSize, colSize) == 0.0 {
      PosInside(r, c, rowSize, colSize);
    }
  }

  lemma StartBlock(v: Slots, m: Matrix, cols: nat, rowSize: nat, colSize: nat, offR: nat, offC: nat)
    requires Rect(m, |m|, cols) && |v| >= Flat(rowSize, colSize) && forall p :: 0 <= p < |v| ==> v[p] == 0.0
    ensures Copied(v, m, cols, rowSize, colSize, offR, offC, 0, 0)
  {
    hide Flat, Pos;
    forall r, c | 0 <= r < rowSize && 0 <= c < colSize ensures Entry2(v, r, c, rowSize, colSize) == 0.0 {
      PosInside(r, c, rowSize, colSize);
    }
  }

  lemma PosDistinct(r: nat, c: nat, r': nat, c': nat, w: nat)
    requires c < w && c' < w && (r != r' || c != c')
    ensures Pos(r, c, w) != Pos(r', c', w)
  {
    PosDivMod(r, c, w);
    PosDivMod(r', c', w);
  }

  lemma CopyOne(v: Slots, m: Matrix, cols: nat, rowSize: nat, colSize: nat, offR: nat, offC: nat, r: nat, c: nat)
    requires Rect(m, |m|, cols) && r < rowSize && c < colSize && offR + r < |m| && offC + c < cols
    requires Copied(v, m, cols, rowSize, colSize, offR, offC, r, c)
    ensures Pos(r, c, colSize) < |v| && |m[offR + r]| == cols
    ensures Copied(v[Pos(r, c, colSize) := m[offR + r][offC + c]], m, cols, rowSize, colSize, offR, offC, r, c + 1)
  {
    PosInside(r, c, rowSize, colSize);
    var w := v[Pos(r, c, colSize) := m[offR + r][offC + c]];
    hide Flat, Pos;
    forall r', c' | 0 <= r' < rowSize && 0 <= c' < colSize
      ensures Entry2(w, r', c', rowSize, colSize)
           == if r' < r || (r' == r && c' < c + 1) then PaddedAt(m, cols, offR + r', offC + c') else 0.0
    {
      PosInside(r', c', rowSize, colSize);
      assert Entry2(v, r', c', rowSize, colSize)
          == if r' < r || (r' == r && c' < c) then PaddedAt(m, cols, offR + r', offC + c') else 0.0;
      if r' != r || c' != c {
        PosDistinct(r, c, r', c', colSize);
      }
    }
  }

  /** Beyond the matrix there is nothing to copy. */
  lemma RowDone(v: Slots, m: Matrix, cols: nat, rowSize: nat, colSize: nat, offR: nat, offC: nat, r: nat, done: nat)
    requires Rect(m, |m|, cols) && Copied(v, m, cols, rowSize, colSize, offR, offC, r, done) && (done >= colSize || offC + done >= cols)
    ensures Copied(v, m, cols, rowSize, colSize, offR, offC, r + 1, 0)
  {
    hide Flat, Entry2;
  }

  lemma BlockDone(v: Slots, m: Matrix, cols: nat, rowSize: nat, colSize: nat, offR: nat, offC: nat, rows: nat)
    requires Rect(m, |m|, cols) && Copied(v, m, cols, rowSize, colSize, offR, offC, rows, 0) && (rows >= rowSize || offR + rows >= |m|)
    ensures IsBlock(v, m, cols, rowSize, colSize, offR, offC)
  {
    hide Flat, Entry2;
  }
  ghost predicate AreBlocks(blocks: Blocks, m: Matrix, cols: nat, rowSize: nat, colSize: nat, numSlots: nat, blockRows: nat, blockCols: nat)
    requires Rect(m, |m|, cols)
  {
    |blocks| == blockRows && forall i :: 0 <= i < blockRows ==> BlockRowOk(blocks[i], m, cols, rowSize, colSize, numSlots, i, blockCols)
  }

  ghost predicate BlockRowOk(row: seq<Slots>, m: Matrix, cols: nat, rowSize: nat, colSize: nat, numSlots: nat, i: nat, blockCols: nat)
    requires Rect(m, |m|, cols)
  {
    |row| == blockCols
    && forall j :: 0 <= j < blockCols ==> |row[j]| == numSlots && IsBlock(row[j], m, cols, rowSize, colSize, Flat(i, rowSize), Flat(j, colSize))
  }

  /** An empty matrix has no blocks; a zero row size or a slot count it does not divide is refused. A
      zero column size stands for the row size. */
  method ExtractAndLinearizeMatrix(m: Matrix, ghost cols: nat, numSlots: nat, rowSize: nat, colSize0: nat)
    returns (blocks: Option<Blocks>)
    requires Rect(m, |m|, cols) && numSlots >= Flat(rowSize, if colSize0 == 0 then rowSize else colSize0)
    ensures |m| == 0 || cols == 0 ==> blocks == Some([])
    ensures blocks.None? <==> |m| > 0 && cols > 0 && (rowSize == 0 || numSlots % rowSize != 0)
    ensures blocks.Some? && |m| > 0 && cols > 0 ==>
      var colSize := if colSize0 == 0 then rowSize else colSize0;
      AreBlocks(blocks.value, m, cols, rowSize, colSize, numSlots, BlocksFor(|m|, rowSize), BlocksFor(cols, colSize))
  {
    var colSize := if colSize0 == 0 then rowSize else colSize0;
    if |m| == 0 || |m[0]| == 0 {
      return Some([]);
    }
    if rowSize == 0 {
      return None;
    }
    if numSlots % rowSize != 0 {
      return None;
    }
    var numBlockRows, numBlockCols := BlocksFor(|m|, rowSize), BlocksFor(|m[0]|, colSize);
    var mat: Blocks := [];
    hide Flat, IsBlock, BlocksFor;
    for bi := 0 to numBlockRows
      invariant AreBlocks(mat, m, cols, rowSize, colSize, numSlots, bi, numBlockCols)
    {
      var row: seq<Slots> := [];
      for bj := 0 to numBlockCols
        invariant BlockRowOk(row, m, cols, rowSize, colSize, numSlots, bi, bj)
      {
        var vec := ExtractAndLinearizeMatrixBlock(m, cols, numSlots, rowSize, colSize, Flat(bi, rowSize), Flat(bj, colSize));
        row := row + [vec.value];
      }
      mat := mat + [row];
    }
    blocks := Some(mat);
  }

  ghost predicate FullBlocks(blocks: Blocks, rows: nat, cols: nat, size: nat) {
    |blocks| == rows && forall i :: 0 <= i < rows ==> |blocks[i]| == cols && forall j :: 0 <= j < cols ==> |blocks[i][j]| >= size
  }

  /** Entry (i, j) of the reassembled matrix. */
  function LargeEntry(blocks: Blocks, rowSize: nat, colSize: nat, rows: nat, cols: nat, i: nat, j: nat): real
    requires rowSize > 0 && colSize > 0 && FullBlocks(blocks, rows, cols, Flat(rowSize, colSize))
    requires i < Flat(rows, rowSize) && j < Flat(cols, colSize)
  {
    PosOf(i, rows, rowSize);
    PosOf(j, cols, colSize);
    assert |blocks[i / rowSize]| == cols;
    Entry2(blocks[i / rowSize][j / colSize], i % rowSize, j % colSize, rowSize, colSize)
  }

  method ConvertToLargeMatrix(blocks: Blocks, rowSize: nat, colSize0: nat, ghost cols: nat) returns (large: Matrix)
    requires rowSize > 0 && FullBlocks(blocks, |blocks|, cols, Flat(rowSize, if colSize0 == 0 then rowSize else colSize0))
    ensures |blocks| == 0 || cols == 0 ==> large == []
    ensures |blocks| > 0 && cols > 0 ==>
      var colSize := if colSize0 == 0 then rowSize else colSize0;
      && Rect(large, Flat(|blocks|, rowSize), Flat(cols, colSize))
      && forall i, j :: 0 <= i < Flat(|blocks|, rowSize) && 0 <= j < Flat(cols, colSize) ==>
           large[i][j] == LargeEntry(blocks, rowSize, colSize, |blocks|, cols, i, j)
  {
    if |blocks| == 0 || |blocks[0]| == 0 {
      return [];
    }
    var colSize := if colSize0 == 0 then rowSize else colSize0;
    var numBlockRows, numBlockCols := |blocks|, |blocks[0]|;
    large := seq(Flat(numBlockRows, rowSize), _ => seq(Flat(numBlockCols, colSize), _ => 0.0));
    ghost var shape := Shape(rowSize, colSize, numBlockRows, numBlockCols);
    StartFilling(large, blocks, shape);
    hide Flat, Filled, FullBlocks, Rect, LargeEntry, FullBlocks;
    for blockRow := 0 to numBlockRows
      invariant Filled(large, blocks, shape, Cursor(blockRow, 0, 0, 0))
    {
      for blockCol := 0 to numBlockCols
        invariant Filled(large, blocks, shape, Cursor(blockRow, blockCol, 0, 0))
      {
        for i := 0 to rowSize
          invariant Filled(large, blocks, shape, Cursor(blockRow, blockCol, i, 0))
        {
          for j := 0 to colSize
            invariant Filled(large, blocks, shape, Cursor(blockRow, blockCol, i, j))
          {
            FillOne(large, blocks, shape, Cursor(blockRow, blockCol, i, j));
            var row, column := Pos(blockRow, i, rowSize), Pos(blockCol, j, colSize);
            large := large[row := large[row][column := blocks[blockRow][blockCol][Pos(i, j, colSize)]]];
          }
          Carry(large, blocks, shape, Cursor(blockRow, blockCol, i, colSize), Cursor(blockRow, blockCol, i + 1, 0));
        }
        Carry(large, blocks, shape, Cursor(blockRow, blockCol, rowSize, 0), Cursor(blockRow, blockCol + 1, 0, 0));
      }
      Carry(large, blocks, shape, Cursor(blockRow, numBlockCols, 0, 0), Cursor(blockRow + 1, 0, 0, 0));
    }
    AllFilled(large, blocks, shape);
  }

  datatype Shape = Shape(rowSize: nat, colSize: nat, rows: nat, cols: nat)

  /** How far the four nested loops have come. */
  datatype Cursor = Cursor(blockRow: nat, blockCol: nat, i: nat, j: nat)

  predicate Before(c: Cursor, d: Cursor) {
    c.blockRow < d.blockRow
    || (c.blockRow == d.blockRow && (c.blockCol < d.blockCol
       || (c.blockCol == d.blockCol && (c.i < d.i || (c.i == d.i && c.j < d.j)))))
  }

  predicate Inside(c: Cursor, s: Shape) {
    c.blockRow < s.rows && c.blockCol < s.cols && c.i < s.rowSize && c.j < s.colSize
  }

  function LargeAt(large: Matrix, s: Shape, c: Cursor): real
    requires Rect(large, Flat(s.rows, s.rowSize), Flat(s.cols, s.colSize)) && Inside(c, s)
  {
    PosInside(c.blockRow, c.i, s.rows, s.rowSize);
    PosInside(c.blockCol, c.j, s.cols, s.colSize);
    large[Pos(c.blockRow, c.i, s.rowSize)][Pos(c.blockCol, c.j, s.colSize)]
  }

  function SourceAt(blocks: Blocks, s: Shape, c: Cursor): real
    requires FullBlocks(blocks, s.rows, s.cols, Flat(s.rowSize, s.colSize)) && Inside(c, s)
  {
    assert |blocks[c.blockRow]| == s.cols;
    Entry2(blocks[c.blockRow][c.blockCol], c.i, c.j, s.rowSize, s.colSize)
  }

  ghost predicate Filled(large: Matrix, blocks: Blocks, s: Shape, done: Cursor) {
    && Rect(large, Flat(s.rows, s.rowSize), Flat(s.cols, s.colSize))
    && FullBlocks(blocks, s.rows, s.cols, Flat(s.rowSize, s.colSize))
    && forall c :: Inside(c, s) ==> LargeAt(large, s, c) == if Before(c, done) then SourceAt(blocks, s, c) else 0.0
  }

  lemma StartFilling(large: Matrix, blocks: Blocks, s: Shape)
    requires Rect(large, Flat(s.rows, s.rowSize), Flat(s.cols, s.colSize)) && FullBlocks(blocks, s.rows, s.cols, Flat(s.rowSize, s.colSize))
    requires forall i, j :: 0 <= i < |large| && 0 <= j < |large[i]| ==> large[i][j] == 0.0
    ensures Filled(large, blocks, s, Cursor(0, 0, 0, 0))
  {
    hide Flat, Pos, SourceAt;
    forall c | Inside(c, s) ensures LargeAt(large, s, c) == 0.0 {
      PosInside(c.blockRow, c.i, s.rows, s.rowSize);
      PosInside(c.blockCol, c.j, s.cols, s.colSize);
    }
  }

  lemma FillOne(large: Matrix, blocks: Blocks, s: Shape, at: Cursor)
    requires Filled(large, blocks, s, at) && Inside(at, s)
    ensures var row, column := Pos(at.blockRow, at.i, s.rowSize), Pos(at.blockCol, at.j, s.colSize);
      && row < |large| && column < |large[row]|
      && at.blockRow < |blocks| && at.blockCol < |blocks[at.blockRow]|
      && Pos(at.i, at.j, s.colSize) < |blocks[at.blockRow][at.blockCol]|
      && Filled(large[row := large[row][column := blocks[at.blockRow][at.blockCol][Pos(at.i, at.j, s.colSize)]]], blocks, s, at.(j := at.j + 1))
  {
    PosInside(at.blockRow, at.i, s.rows, s.rowSize);
    PosInside(at.blockCol, at.j, s.cols, s.colSize);
    PosInside(at.i, at.j, s.rowSize, s.colSize);
    assert |blocks[at.blockRow]| == s.cols && |blocks[at.blockRow][at.blockCol]| >= Flat(s.rowSize, s.colSize);
    hide Flat, Pos, FullBlocks;
    var row, column := Pos(at.blockRow, at.i, s.rowSize), Pos(at.blockCol, at.j, s.colSize);
    var x := blocks[at.blockRow][at.blockCol][Pos(at.i, at.j, s.colSize)];
    var next := large[row := large[row][column := x]];
    assert x == SourceAt(blocks, s, at);
    forall c | Inside(c, s)
      ensures LargeAt(next, s, c) == if Before(c, at.(j := at.j + 1)) then SourceAt(blocks, s, c) else 0.0
    {
      PosInside(c.blockRow, c.i, s.rows, s.rowSize);
      PosInside(c.blockCol, c.j, s.cols, s.colSize);
      assert LargeAt(large, s, c) == if Before(c, at) then SourceAt(blocks, s, c) else 0.0;
      hide SourceAt;
      if c.blockRow != at.blockRow || c.i != at.i {
        PosDistinct(c.blockRow, c.i, at.blockRow, at.i, s.rowSize);
      } else if c.blockCol != at.blockCol || c.j != at.j {
        PosDistinct(c.blockCol, c.j, at.blockCol, at.j, s.colSize);
      }
    }
  }

  /** A loop that has run out stands where the next round of the enclosing one starts. */
  lemma Carry(large: Matrix, blocks: Blocks, s: Shape, done: Cursor, next: Cursor)
    requires Filled(large, blocks, s, done) && forall c :: Inside(c, s) ==> (Before(c, done) <==> Before(c, next))
    ensures Filled(large, blocks, s, next)
  {
    hide LargeAt, SourceAt, FullBlocks, Rect, Flat;
  }

  lemma AllFilled(large: Matrix, blocks: Blocks, s: Shape)
    requires s.rowSize > 0 && s.colSize > 0 && Filled(large, blocks, s, Cursor(s.rows, 0, 0, 0))
    ensures Rect(large, Flat(s.rows, s.rowSize), Flat(s.cols, s.colSize)) && FullBlocks(blocks, s.rows, s.cols, Flat(s.rowSize, s.colSize))
    ensures forall i, j :: 0 <= i < Flat(s.rows, s.rowSize) && 0 <= j < Flat(s.cols, s.colSize) ==>
      large[i][j] == LargeEntry(blocks, s.rowSize, s.colSize, s.rows, s.cols, i, j)
  {
    forall i, j | 0 <= i < Flat(s.rows, s.rowSize) && 0 <= j < Flat(s.cols, s.colSize)
      ensures large[i][j] == LargeEntry(blocks, s.rowSize, s.colSize, s.rows, s.cols, i, j)
    {
      PosOf(i, s.rows, s.rowSize);
      PosOf(j, s.cols, s.colSize);
      var c := Cursor(i / s.rowSize, j / s.colSize, i % s.rowSize, j % s.colSize);
      hide Flat, Pos;
      assert Inside(c, s) && Before(c, Cursor(s.rows, 0, 0, 0));
      assert LargeAt(large, s, c) == SourceAt(blocks, s, c);
    }
  }
  /** Main result on cutting: putting the blocks together again gives the matrix, padded with zeros. */
  lemma ReassemblingPads(blocks: Blocks, large: Matrix, m: Matrix, cols: nat, rowSize: nat, colSize: nat, numSlots: nat, rows': nat, cols': nat)
    requires rowSize > 0 && colSize > 0 && Rect(m, |m|, cols) && numSlots >= Flat(rowSize, colSize)
    requires AreBlocks(blocks, m, cols, rowSize, colSize, numSlots, rows', cols')
    requires FullBlocks(blocks, rows', cols', Flat(rowSize, colSize)) && Rect(large, Flat(rows', rowSize), Flat(cols', colSize))
    requires forall i, j :: 0 <= i < Flat(rows', rowSize) && 0 <= j < Flat(cols', colSize) ==>
      large[i][j] == LargeEntry(blocks, rowSize, colSize, rows', cols', i, j)
    ensures large == Padded(m, cols, Flat(rows', rowSize), Flat(cols', colSize))
  {
    forall i, j | 0 <= i < Flat(rows', rowSize) && 0 <= j < Flat(cols', colSize)
      ensures large[i][j] == PaddedAt(m, cols, i, j)
    {
      BlockedEntry(blocks, m, cols, rowSize, colSize, numSlots, rows', cols', i, j);
    }
    hide Flat, LargeEntry, PaddedAt;
    var p := Padded(m, cols, Flat(rows', rowSize), Flat(cols', colSize));
    forall i | 0 <= i < |large| ensures large[i] == p[i] {
      assert forall j :: 0 <= j < |large[i]| ==> large[i][j] == p[i][j];
    }
  }

  lemma BlockedEntry(blocks: Blocks, m: Matrix, cols: nat, rowSize: nat, colSize: nat, numSlots: nat, rows': nat, cols': nat, i: nat, j: nat)
    requires rowSize > 0 && colSize > 0 && Rect(m, |m|, cols) && numSlots >= Flat(rowSize, colSize)
    requires AreBlocks(blocks, m, cols, rowSize, colSize, numSlots, rows', cols')
    requires FullBlocks(blocks, rows', cols', Flat(rowSize, colSize)) && i < Flat(rows', rowSize) && j < Flat(cols', colSize)
    ensures LargeEntry(blocks, rowSize, colSize, rows', cols', i, j) == PaddedAt(m, cols, i, j)
  {
    PosOf(i, rows', rowSize);
    PosOf(j, cols', colSize);
    var bi, bj := i / rowSize, j / colSize;
    assert BlockRowOk(blocks[bi], m, cols, rowSize, colSize, numSlots, bi, cols');
    assert IsBlock(blocks[bi][bj], m, cols, rowSize, colSize, Flat(bi, rowSize), Flat(bj, colSize));
    hide Flat, Entry2;
  }

  // ---- The product of blocks ----

  /** A grid of blocks, each a full d by d matrix in its slots. */
  ghost predicate Grid(blocks: Blocks, rows: nat, cols: nat, d: nat) {
    |blocks| == rows && forall i :: 0 <= i < rows ==> |blocks[i]| == cols && forall j :: 0 <= j < cols ==> |blocks[i][j]| == Size(d)
  }

  /** Entry (a, b) of the inner products of row i with column j, block by block. */
  function BlockTerms(m1: Blocks, m2: Blocks, inner: nat, cols: nat, d: nat, i: nat, j: nat, a: nat, b: nat): (t: seq<real>)
    requires Grid(m1, |m1|, inner, d) && Grid(m2, inner, cols, d) && i < |m1| && j < cols && a < d && b < d
    ensures |t| == inner
  {
    seq(inner, k requires 0 <= k < inner => Entry(m1[i][k], m2[k][j], d, a, b))
  }

  ghost predicate DotSoFar(dot: Slots, m1: Blocks, m2: Blocks, inner: nat, cols: nat, d: nat, i: nat, j: nat, k: nat)
    requires Grid(m1, |m1|, inner, d) && Grid(m2, inner, cols, d) && i < |m1| && j < cols && k <= inner
  {
    |dot| == Size(d)
    && forall a, b :: 0 <= a < d && 0 <= b < d ==> At(dot, d, a, b) == Sum(BlockTerms(m1, m2, inner, cols, d, i, j, a, b)[..k])
  }

  lemma FirstBlock(dot: Slots, m1: Blocks, m2: Blocks, inner: nat, cols: nat, d: nat, i: nat, j: nat)
    requires Grid(m1, |m1|, inner, d) && Grid(m2, inner, cols, d) && i < |m1| && j < cols && inner > 0 && |dot| == Size(d)
    requires forall a, b :: 0 <= a < d && 0 <= b < d ==> At(dot, d, a, b) == Entry(m1[i][0], m2[0][j], d, a, b)
    ensures DotSoFar(dot, m1, m2, inner, cols, d, i, j, 1)
  {
    hide At, Entry, Size, Sum;
    forall a, b | 0 <= a < d && 0 <= b < d
      ensures At(dot, d, a, b) == Sum(BlockTerms(m1, m2, inner, cols, d, i, j, a, b)[..1])
    {
      var t := BlockTerms(m1, m2, inner, cols, d, i, j, a, b);
      SumNext(t, 0);
      assert t[..0] == [];
      EmptySum();
    }
  }

  lemma NextBlock(dot: Slots, more: Slots, m1: Blocks, m2: Blocks, inner: nat, cols: nat, d: nat, i: nat, j: nat, k: nat)
    requires Grid(m1, |m1|, inner, d) && Grid(m2, inner, cols, d) && i < |m1| && j < cols && k < inner && |more| == |dot| == Size(d)
    requires DotSoFar(dot, m1, m2, inner, cols, d, i, j, k)
    requires forall a, b :: 0 <= a < d && 0 <= b < d ==> At(more, d, a, b) == Entry(m1[i][k], m2[k][j], d, a, b)
    ensures DotSoFar(Plus(dot, more), m1, m2, inner, cols, d, i, j, k + 1)
  {
    hide At, Entry, Size, Sum;
    forall a, b | 0 <= a < d && 0 <= b < d
      ensures At(Plus(dot, more), d, a, b) == Sum(BlockTerms(m1, m2, inner, cols, d, i, j, a, b)[..k + 1])
    {
      AtTimes(dot, more, d, a, b);
      SumNext(BlockTerms(m1, m2, inner, cols, d, i, j, a, b), k);
    }
  }

  ghost predicate RowSoFar(row: seq<Slots>, m1: Blocks, m2: Blocks, inner: nat, cols: nat, d: nat, i: nat)
    requires Grid(m1, |m1|, inner, d) && Grid(m2, inner, cols, d) && i < |m1|
  {
    |row| <= cols && forall j :: 0 <= j < |row| ==> DotSoFar(row[j], m1, m2, inner, cols, d, i, j, inner)
  }

  /** The triple loop over blocks. */
  method MultiplyBlocks(m1: Blocks, m2: Blocks, d: nat, pre: Precomputations, ghost inner: nat, ghost cols: nat) returns (product: Blocks)
    requires Grid(m1, |m1|, inner, d) && Grid(m2, inner, cols, d) && inner > 0 && Ready(pre, d)
    ensures |product| == |m1| && forall i :: 0 <= i < |m1| ==> |product[i]| == cols && RowSoFar(product[i], m1, m2, inner, cols, d, i)
  {
    product := [];
    for i := 0 to |m1|
      invariant |product| == i && forall r :: 0 <= r < i ==> |product[r]| == cols && RowSoFar(product[r], m1, m2, inner, cols, d, r)
    {
      var row := MultiplyRow(m1, m2, d, pre, inner, cols, i);
      product := product + [row];
    }
  }

  method MultiplyRow(m1: Blocks, m2: Blocks, d: nat, pre: Precomputations, ghost inner: nat, ghost cols: nat, i: nat) returns (row: seq<Slots>)
    requires Grid(m1, |m1|, inner, d) && Grid(m2, inner, cols, d) && inner > 0 && Ready(pre, d) && i < |m1|
    ensures |row| == cols && RowSoFar(row, m1, m2, inner, cols, d, i)
  {
    row := [];
    hide Ready, Size, At, Entry;
    for j := 0 to |m2[0]|
      invariant |row| == j && RowSoFar(row, m1, m2, inner, cols, d, i)
    {
      var dotProd := MatrixMatrixProductSquare(m1[i][0], m2[0][j], d, pre);
      FirstBlock(dotProd, m1, m2, inner, cols, d, i, j);
      for k := 1 to |m2|
        invariant |dotProd| == Size(d) && DotSoFar(dotProd, m1, m2, inner, cols, d, i, j, k)
      {
        var dotProdNew := MatrixMatrixProductSquare(m1[i][k], m2[k][j], d, pre);
        NextBlock(dotProd, dotProdNew, m1, m2, inner, cols, d, i, j, k);
        dotProd := Plus(dotProd, dotProdNew);
      }
      row := row + [dotProd];
    }
  }

  // ---- Blocks against the plain product ----

  /** Block k of the long inner product is the inner product of block k. */
  lemma TermsOfBlock(p1: Matrix, p2: Matrix, m1: Blocks, m2: Blocks, inner: nat, cols: nat, d: nat, i: nat, j: nat, a: nat, b: nat, k: nat)
    requires Grid(m1, |m1|, inner, d) && Grid(m2, inner, cols, d) && i < |m1| && j < cols && a < d && b < d && k < inner
    requires Holds(p1, m1, |m1|, inner, d) && Holds(p2, m2, inner, cols, d)
    ensures Pos(i, a, d) < |p1| && |p2| == Flat(inner, d) <= |p1[Pos(i, a, d)]| && (forall q :: 0 <= q < |p2| ==> Pos(j, b, d) < |p2[q]|)
    ensures Flat(k, d) + d <= Flat(inner, d)
    ensures DotTerms(p1, p2, Pos(i, a, d), Pos(j, b, d))[Flat(k, d)..Flat(k, d) + d] == Summands(m1[i][k], m2[k][j], d, a, b)
  {
    PosInside(i, a, |m1|, d);
    PosInside(j, b, cols, d);
    FlatInside(k, inner, d);
    hide Flat, Pos;
    var t, u := DotTerms(p1, p2, Pos(i, a, d), Pos(j, b, d)), Summands(m1[i][k], m2[k][j], d, a, b);
    forall c | 0 <= c < d ensures t[Flat(k, d) + c] == u[c] {
      PosIs(k, c, d);
      PosInside(k, c, inner, d);
      assert HoldsAt(p1, m1, d, i, k, a, c) && HoldsAt(p2, m2, d, k, j, c, b);
      SummandAt(m1[i][k], m2[k][j], d, a, b, c);
    }
  }

  lemma PosIs(a: nat, b: nat, w: nat)
    ensures Pos(a, b, w) == Flat(a, w) + b
  {
  }

  ghost predicate HoldsAt(p: Matrix, m: Blocks, d: nat, i: nat, j: nat, a: nat, b: nat)
    requires i < |m| && j < |m[i]| && |m[i][j]| == Size(d) && a < d && b < d
  {
    Pos(i, a, d) < |p| && Pos(j, b, d) < |p[Pos(i, a, d)]| && p[Pos(i, a, d)][Pos(j, b, d)] == At(m[i][j], d, a, b)
  }

  /** p is the matrix whose blocks are m. */
  ghost predicate Holds(p: Matrix, m: Blocks, rows: nat, cols: nat, d: nat)
    requires Grid(m, rows, cols, d)
  {
    Rect(p, Flat(rows, d), Flat(cols, d))
    && forall i, j, a, b :: 0 <= i < rows && 0 <= j < cols && 0 <= a < d && 0 <= b < d ==> |m[i]| == cols && HoldsAt(p, m, d, i, j, a, b)
  }

  lemma {:induction false} SumByBlocks(t: seq<real>, parts: seq<real>, d: nat, n: nat)
    requires |t| == Flat(n, d) && |parts| == n
    requires forall k :: 0 <= k < n ==> Flat(k, d) + d <= |t| && parts[k] == Sum(t[Flat(k, d)..Flat(k, d) + d])
    ensures Sum(t) == Sum(parts)
    decreases n
  {
    hide *;
    FlatStep(0, d);
    if n == 0 {
      assert t == [] && parts == [];
    } else {
      FlatStep(n - 1, d);
      var cut := Flat(n - 1, d);
      var front, last := t[..cut], t[cut..];
      forall k | 0 <= k < n - 1 ensures Flat(k, d) + d <= |front| && parts[..n - 1][k] == Sum(front[Flat(k, d)..Flat(k, d) + d]) {
        FlatInside(k, n - 1, d);
        assert front[Flat(k, d)..Flat(k, d) + d] == t[Flat(k, d)..Flat(k, d) + d];
      }
      SumByBlocks(front, parts[..n - 1], d, n - 1);
      assert t == front + last && last == t[Flat(n - 1, d)..Flat(n - 1, d) + d];
      SumConcat(front, last);
      SumNext(parts, n - 1);
      assert parts[..n] == parts;
    }
  }

  /** Main result: an entry of the blocked product is the entry of the plain product. */
  lemma BlockedIsPlain(p1: Matrix, p2: Matrix, m1: Blocks, m2: Blocks, inner: nat, cols: nat, d: nat, i: nat, j: nat, a: nat, b: nat)
    requires Grid(m1, |m1|, inner, d) && Grid(m2, inner, cols, d) && i < |m1| && j < cols && a < d && b < d
    requires Holds(p1, m1, |m1|, inner, d) && Holds(p2, m2, inner, cols, d) && inner > 0
    ensures Pos(i, a, d) < |p1| && |p2| == Flat(inner, d) <= |p1[Pos(i, a, d)]| && (forall q :: 0 <= q < |p2| ==> Pos(j, b, d) < |p2[q]|)
    ensures Sum(BlockTerms(m1, m2, inner, cols, d, i, j, a, b)) == Sum(DotTerms(p1, p2, Pos(i, a, d), Pos(j, b, d)))
  {
    TermsOfBlock(p1, p2, m1, m2, inner, cols, d, i, j, a, b, 0);
    hide Flat, Pos, Sum, Summands, HoldsAt, Holds;
    var t, parts := DotTerms(p1, p2, Pos(i, a, d), Pos(j, b, d)), BlockTerms(m1, m2, inner, cols, d, i, j, a, b);
    forall k | 0 <= k < inner ensures Flat(k, d) + d <= |t| && parts[k] == Sum(t[Flat(k, d)..Flat(k, d) + d]) {
      TermsOfBlock(p1, p2, m1, m2, inner, cols, d, i, j, a, b, k);
      assert parts[k] == Entry(m1[i][k], m2[k][j], d, a, b);
    }
    SumByBlocks(t, parts, d, inner);
  }
  // ---- From end to end ----

  lemma BlocksHold(p: Matrix, blocks: Blocks, m: Matrix, cols: nat, d: nat, rows': nat, cols': nat)
    requires d > 0 && Rect(m, |m|, cols) && AreBlocks(blocks, m, cols, d, d, Size(d), rows', cols')
    requires p == Padded(m, cols, Flat(rows', d), Flat(cols', d))
    ensures Grid(blocks, rows', cols', d) && Holds(p, blocks, rows', cols', d)
  {
    hide Flat, IsBlock, PaddedAt;
    forall i | 0 <= i < rows' ensures |blocks[i]| == cols' && forall j :: 0 <= j < cols' ==> |blocks[i][j]| == Size(d) {
      assert BlockRowOk(blocks[i], m, cols, d, d, Size(d), i, cols');
    }
    forall i, j, a, b | 0 <= i < rows' && 0 <= j < cols' && 0 <= a < d && 0 <= b < d
      ensures |blocks[i]| == cols' && HoldsAt(p, blocks, d, i, j, a, b)
    {
      assert BlockRowOk(blocks[i], m, cols, d, d, Size(d), i, cols');
      BlockHoldsAt(p, blocks[i][j], m, cols, d, rows', cols', i, j, a, b);
    }
  }

  lemma BlockHoldsAt(p: Matrix, block: Slots, m: Matrix, cols: nat, d: nat, rows': nat, cols': nat, i: nat, j: nat, a: nat, b: nat)
    requires d > 0 && Rect(m, |m|, cols) && i < rows' && j < cols' && a < d && b < d && |block| == Size(d)
    requires IsBlock(block, m, cols, d, d, Flat(i, d), Flat(j, d)) && p == Padded(m, cols, Flat(rows', d), Flat(cols', d))
    ensures Pos(i, a, d) < |p| && Pos(j, b, d) < |p[Pos(i, a, d)]| && p[Pos(i, a, d)][Pos(j, b, d)] == At(block, d, a, b)
  {
    PosInside(i, a, rows', d);
    PosInside(j, b, cols', d);
    PosIs(i, a, d);
    PosIs(j, b, d);
    assert Entry2(block, a, b, d, d) == PaddedAt(m, cols, Flat(i, d) + a, Flat(j, d) + b);
    assert Entry2(block, a, b, d, d) == At(block, d, a, b);
    hide Flat, Pos, PaddedAt, Padded;
  }

  lemma EntryOfProduct(product: Blocks, p1: Matrix, p2: Matrix, m1: Blocks, m2: Blocks, inner: nat, cols: nat, d: nat, i: nat, j: nat)
    requires d > 0 && inner > 0 && Grid(m1, |m1|, inner, d) && Grid(m2, inner, cols, d)
    requires Holds(p1, m1, |m1|, inner, d) && Holds(p2, m2, inner, cols, d)
    requires |product| == |m1| && forall r :: 0 <= r < |m1| ==> |product[r]| == cols && RowSoFar(product[r], m1, m2, inner, cols, d, r)
    requires FullBlocks(product, |m1|, cols, Size(d)) && i < Flat(|m1|, d) && j < Flat(cols, d)
    ensures i < |p1| && |p2| <= |p1[i]| && (forall q :: 0 <= q < |p2| ==> j < |p2[q]|)
    ensures LargeEntry(product, d, d, |m1|, cols, i, j) == Sum(DotTerms(p1, p2, i, j))
  {
    PosOf(i, |m1|, d);
    PosOf(j, cols, d);
    var bi, bj, a, b := i / d, j / d, i % d, j % d;
    BlockedIsPlain(p1, p2, m1, m2, inner, cols, d, bi, bj, a, b);
    assert RowSoFar(product[bi], m1, m2, inner, cols, d, bi);
    var t := BlockTerms(m1, m2, inner, cols, d, bi, bj, a, b);
    assert t[..inner] == t;
    assert Entry2(product[bi][bj], a, b, d, d) == At(product[bi][bj], d, a, b);
    hide Flat, Holds, Sum, Grid, BlockTerms;
  }

  /** Zeros beyond the original matrices add nothing to an inner product. */
  lemma PaddingAddsNothing(m1: Matrix, m2: Matrix, inner: nat, cols: nat, rows': nat, inner': nat, cols': nat, i: nat, j: nat)
    requires Rect(m1, |m1|, inner) && Rect(m2, inner, cols) && |m1| <= rows' && inner <= inner' && cols <= cols' && i < |m1| && j < cols
    ensures Sum(DotTerms(Padded(m1, inner, rows', inner'), Padded(m2, cols, inner', cols'), i, j)) == Sum(DotTerms(m1, m2, i, j))
  {
    var p1, p2 := Padded(m1, inner, rows', inner'), Padded(m2, cols, inner', cols');
    var long, short := DotTerms(p1, p2, i, j), DotTerms(m1, m2, i, j);
    forall k | 0 <= k < inner ensures long[k] == short[k] {
      assert p1[i][k] == m1[i][k] && p2[k][j] == m2[k][j];
    }
    assert long[..inner] == short;
    assert forall k :: inner <= k < inner' ==> long[k] == 0.0;
    ZeroTail(long, inner);
  }

  lemma {:induction false} ZeroTail(t: seq<real>, n: nat)
    requires n <= |t| && forall k :: n <= k < |t| ==> t[k] == 0.0
    ensures Sum(t) == Sum(t[..n])
    decreases |t|
  {
    if n < |t| {
      ZeroTail(t[..|t| - 1], n);
      assert t[..|t| - 1][..n] == t[..n];
    } else {
      assert t[..n] == t;
    }
  }

  lemma SizeDivides(d: nat)
    requires d > 0
    ensures Size(d) % d == 0
  {
    PosDivMod(d, 0, d);
  }

  /** Main result from end to end: cutting, multiplying the blocks and putting them together gives the
      product of the padded matrices, and on the original rows and columns the plain product itself. */
  method MultiplyThroughBlocks(m1: Matrix, m2: Matrix, d: nat, ghost inner: nat, ghost cols: nat) returns (large: Matrix)
    requires d > 0 && |m1| > 0 && inner > 0 && cols > 0 && Rect(m1, |m1|, inner) && Rect(m2, inner, cols)
    ensures var rows', inner', cols' := Flat(BlocksFor(|m1|, d), d), Flat(BlocksFor(inner, d), d), Flat(BlocksFor(cols, d), d);
      && Rect(large, rows', cols')
      && (forall i, j :: 0 <= i < rows' && 0 <= j < cols' ==>
            large[i][j] == Sum(DotTerms(Padded(m1, inner, rows', inner'), Padded(m2, cols, inner', cols'), i, j)))
      && (|m1| <= rows' && cols <= cols' && forall i, j :: 0 <= i < |m1| && 0 <= j < cols ==> large[i][j] == Sum(DotTerms(m1, m2, i, j)))
  {
    SizeDivides(d);
    ghost var r, n, c := BlocksFor(|m1|, d), BlocksFor(inner, d), BlocksFor(cols, d);
    ghost var p1, p2 := Padded(m1, inner, Flat(r, d), Flat(n, d)), Padded(m2, cols, Flat(n, d), Flat(c, d));
    hide BlocksFor, Flat, Holds, RowSoFar, AreBlocks, Ready, LargeEntry, DotTerms, Padded;
    var blocks1 := ExtractAndLinearizeMatrix(m1, inner, Size(d), d, d);
    var blocks2 := ExtractAndLinearizeMatrix(m2, cols, Size(d), d, d);
    BlocksHold(p1, blocks1.value, m1, inner, d, r, n);
    BlocksHold(p2, blocks2.value, m2, cols, d, n, c);
    var pre := GetMatrixMatrixProductPrecomputations(d);
    var product := MultiplyBlocks(blocks1.value, blocks2.value, d, pre, n, c);
    ProductIsFull(product, blocks1.value, blocks2.value, n, c, d);
    large := ConvertToLargeMatrix(product, d, d, c);
    forall i, j | 0 <= i < Flat(r, d) && 0 <= j < Flat(c, d) ensures large[i][j] == Sum(DotTerms(p1, p2, i, j)) {
      EntryOfProduct(product, p1, p2, blocks1.value, blocks2.value, n, c, d, i, j);
    }
    forall i, j | 0 <= i < |m1| && 0 <= j < cols ensures large[i][j] == Sum(DotTerms(m1, m2, i, j)) {
      PaddingAddsNothing(m1, m2, inner, cols, Flat(r, d), Flat(n, d), Flat(c, d), i, j);
    }
  }

  lemma ProductIsFull(product: Blocks, m1: Blocks, m2: Blocks, inner: nat, cols: nat, d: nat)
    requires Grid(m1, |m1|, inner, d) && Grid(m2, inner, cols, d)
    requires |product| == |m1| && forall i :: 0 <= i < |m1| ==> |product[i]| == cols && RowSoFar(product[i], m1, m2, inner, cols, d, i)
    ensures FullBlocks(product, |m1|, cols, Size(d)) && Size(d) == Flat(d, d)
  {
    forall i | 0 <= i < |m1| ensures |product[i]| == cols && forall j :: 0 <= j < cols ==> |product[i][j]| >= Size(d) {
      assert RowSoFar(product[i], m1, m2, inner, cols, d, i);
    }
  }
}
