/**
 The 16x16 byte transpose kernel.
 */
module TransposeX8 {
  import opened Common
  import opened Cells
  import opened Neon

  /** Progress of the descending walk over the `n` output rows of one tile: rows from `c` on
      are stored, only the tile changed, and the pointer is at row `c` (or still at the last
      row, where surplus vectors are overwritten). */
  ghost predicate Walk(mem: seq<Byte>, before: seq<Byte>, p: int, so: int, n: int, cols: seq<Vec>, c: int, o: int) {
    && 1 <= n <= 16 && |cols| == 16 && 0 <= c < 16
    && Inside(p, so, n, 16, |before|)
    && o == Cell(p, so, Min(c, n - 1), 0)
    && (forall i, k :: c <= i < n && 0 <= k < 16 ==> Peek(mem, Cell(p, so, i, k)) == cols[i][k])
    && OnlyBlock(before, mem, p, so, n, 16)
  }

  /** The first store of a tile, at its last row. */
  method WalkStart(output: array<Byte>, o: int, so: int, v: Vec, ghost p: int, ghost n: int, ghost cols: seq<Vec>)
    requires 1 <= n <= 16 && |cols| == 16 && v == cols[15] && (n == 1 || so >= 16)
    requires Inside(p, so, n, 16, output.Length) && o == Cell(p, so, n - 1, 0)
    modifies output
    ensures Walk(output[..], old(output[..]), p, so, n, cols, 15, o)
  {
    InsideCell(p, so, n, 16, output.Length, n - 1, 0);
    InsideCell(p, so, n, 16, output.Length, n - 1, 15);
    ghost var before := output[..];
    Store(output, o, v);
    RowStored(before, output[..], before, p, so, n, 16, n - 1, v);
  }

  /** Move one row up if the block is wide enough, then store column `c`. */
  method WalkStep(output: array<Byte>, o: int, move: bool, so: int, v: Vec,
                  ghost before: seq<Byte>, ghost p: int, ghost n: int, ghost cols: seq<Vec>, ghost c: int)
    returns (o': int)
    requires 0 <= c < 15 && Walk(output[..], before, p, so, n, cols, c + 1, o)
    requires move <==> c < n - 1
    requires v == cols[c] && (n == 1 || so >= 16)
    modifies output
    ensures Walk(output[..], before, p, so, n, cols, c, o')
  {
    o' := o;
    if move {
      o' := o - so;
    }
    ghost var mem := output[..];
    WalkRoom(output.Length, p, so, n, c, o, o');
    Store(output, o', v);
    WalkNext(mem, output[..], before, p, so, n, cols, c, o, o');
  }

  lemma WalkRoom(len: int, p: int, so: int, n: int, c: int, o: int, o': int)
    requires 0 <= c && 1 <= n && Inside(p, so, n, 16, len) && o == Cell(p, so, Min(c + 1, n - 1), 0)
    requires o' == if c < n - 1 then o - so else o
    ensures o' == Cell(p, so, Min(c, n - 1), 0) && 0 <= o' && o' + 16 <= len
  {
    if c < n - 1 {
      assert (c + 1) * so == c * so + so;
    }
    InsideCell(p, so, n, 16, len, Min(c, n - 1), 0);
    InsideCell(p, so, n, 16, len, Min(c, n - 1), 15);
  }

  lemma WalkNext(mem: seq<Byte>, mem': seq<Byte>, before: seq<Byte>, p: int, so: int, n: int, cols: seq<Vec>, c: int, o: int, o': int)
    requires 0 <= c < 15 && Walk(mem, before, p, so, n, cols, c + 1, o) && (n == 1 || so >= 16)
    requires |mem'| == |mem| && o' == Cell(p, so, Min(c, n - 1), 0)
    requires forall k :: 0 <= k < |mem| ==> mem'[k] == if o' <= k < o' + 16 then cols[c][k - o'] else mem[k]
    ensures Walk(mem', before, p, so, n, cols, c, o')
  {
    var row := Min(c, n - 1);
    RowStored(mem, mem', before, p, so, n, 16, row, cols[c]);
    forall i, k | c <= i < n && 0 <= k < 16
      ensures Peek(mem', Cell(p, so, i, k)) == cols[i][k]
    {
      assert i != row ==> Peek(mem, Cell(p, so, i, k)) == cols[i][k];
    }
  }

  /** `v` holds the rows from `start` on. */
  ghost predicate Rows(mem: seq<Byte>, junk: int -> Byte, start: int, si: int, v: seq<Vec>) {
    forall k :: 0 <= k < |v| ==> v[k] == Load(mem, junk, Cell(start, si, k, 0))
  }

  /** The end of the farthest of `n` loads, one for each row from `start` on, and of those that
      reached `reach` before. */
  ghost function Farthest(reach: int, start: int, si: int, n: nat): int {
    if n == 0 then reach else Max(reach, Cell(start, si, n - 1, 16))
  }

  /** Rows further down reach further. */
  lemma FarthestStep(reach: int, start: int, si: int, n: nat, m: nat)
    requires 0 <= si && 1 <= m
    ensures Max(Farthest(reach, start, si, n), Cell(start, si, n + m - 1, 16)) == Farthest(reach, start, si, n + m)
  {
    MulMono(n - 1, n + m - 1, si);
  }

  /** Load one more row and step the input pointer; `far` is how far loads have reached. */
  method LoadNext(mem: seq<Byte>, junk: int -> Byte, ghost start: int, si: int, v: seq<Vec>, i0: int, ghost reach: int, ghost far: int)
    returns (w: seq<Vec>, i1: int, ghost further: int)
    requires 0 <= si && Rows(mem, junk, start, si, v) && i0 == Cell(start, si, |v|, 0) && far == Farthest(reach, start, si, |v|)
    ensures Rows(mem, junk, start, si, w) && |w| == |v| + 1 && i1 == Cell(start, si, |w|, 0)
    ensures further == Farthest(reach, start, si, |w|)
  {
    w := v + [Load(mem, junk, i0)];
    further := Max(far, i0 + 16);
    FarthestStep(reach, start, si, |v|, 1);
    MulSum(|v|, 1, si);
    i1 := i0 + si;
  }

  /** Load sixteen rows. */
  method LoadRows(mem: seq<Byte>, junk: int -> Byte, start: int, si: int, ghost reach: int) returns (v4: seq<Vec>, i0: int, ghost far: int)
    requires 0 <= si
    ensures i0 == start + 16 * si && |v4| == 16 && Rows(mem, junk, start, si, v4)
    ensures far == Farthest(reach, start, si, 16)
  {
    v4, i0, far := [], start, reach;
    v4, i0, far := LoadNext(mem, junk, start, si, v4, i0, reach, far);
    v4, i0, far := LoadNext(mem, junk, start, si, v4, i0, reach, far);
    v4, i0, far := LoadNext(mem, junk, start, si, v4, i0, reach, far);
    v4, i0, far := LoadNext(mem, junk, start, si, v4, i0, reach, far);
    v4, i0, far := LoadNext(mem, junk, start, si, v4, i0, reach, far);
    v4, i0, far := LoadNext(mem, junk, start, si, v4, i0, reach, far);
    v4, i0, far := LoadNext(mem, junk, start, si, v4, i0, reach, far);
    v4, i0, far := LoadNext(mem, junk, start, si, v4, i0, reach, far);
    v4, i0, far := LoadNext(mem, junk, start, si, v4, i0, reach, far);
    v4, i0, far := LoadNext(mem, junk, start, si, v4, i0, reach, far);
    v4, i0, far := LoadNext(mem, junk, start, si, v4, i0, reach, far);
    v4, i0, far := LoadNext(mem, junk, start, si, v4, i0, reach, far);
    v4, i0, far := LoadNext(mem, junk, start, si, v4, i0, reach, far);
    v4, i0, far := LoadNext(mem, junk, start, si, v4, i0, reach, far);
    v4, i0, far := LoadNext(mem, junk, start, si, v4, i0, reach, far);
    v4, i0, far := LoadNext(mem, junk, start, si, v4, i0, reach, far);
  }

  /** One 16-row tile: load 16 rows, run the zip network, store the columns from the last to
      the first.  `blockWidth` is what is left of the block's width. */
  method Tile(input: array<Byte>, junk: int -> Byte, start: int, output: array<Byte>, at: int, si: int, so: int, blockWidth: int, ghost reach: int)
    returns (i0: int, o: int, ghost far: int)
    requires input != output && 1 <= blockWidth && 0 <= si
    requires var n := Min(blockWidth, 16); Inside(at + 16, so, n, 16, output.Length) && (n == 1 || so >= 16)
    modifies output
    ensures i0 == start + 16 * si && o == at + 16 && far == Farthest(reach, start, si, 16)
    ensures OnlyBlock(old(output[..]), output[..], at + 16, so, Min(blockWidth, 16), 16)
    ensures forall c, k :: 0 <= c < Min(blockWidth, 16) && 0 <= k < 16 ==>
              Peek(output[..], Cell(at + 16, so, c, k)) == Load(input[..], junk, Cell(start, si, k, 0))[c]
  {
    var mem := input[..];
    i0, o := start, at;
    var rem := Min(blockWidth - 1, 15);
    var oNOffset := rem * so + 16;
    var v4;
    v4, i0, far := LoadRows(mem, junk, i0, si, reach);
    o := StoreTile(output, o + oNOffset, so, blockWidth, v4, at + 16);
  }

  /** The conditional descending store walk. */
  method StoreTile(output: array<Byte>, first: int, so: int, blockWidth: int, v4: seq<Vec>, ghost p: int) returns (o: int)
    requires |v4| == 16 && 1 <= blockWidth
    requires var n := Min(blockWidth, 16);
             Inside(p, so, n, 16, output.Length) && (n == 1 || so >= 16) && first == Cell(p, so, n - 1, 0)
    modifies output
    ensures o == p
    ensures OnlyBlock(old(output[..]), output[..], p, so, Min(blockWidth, 16), 16)
    ensures forall c, k :: 0 <= c < Min(blockWidth, 16) && 0 <= k < 16 ==>
              Peek(output[..], Cell(p, so, c, k)) == v4[k][c]
  {
    var w := blockWidth;
    ghost var n, before := Min(w, 16), output[..];
    var v0 := ZipNetwork(v4);
    forall c, k | 0 <= c < 16 && 0 <= k < 16
      ensures |v0| == 16 && v0[c][k] == v4[k][c]
    {
      NetworkTransposes(v4, c, k);
    }
    assert |v0| == 16 by {
      NetworkTransposes(v4, 0, 0);
    }
    o := StoreColumns(output, first, so, w, v0, p);
  }

  method StoreColumns(output: array<Byte>, first: int, so: int, w: int, v0: seq<Vec>, ghost p: int) returns (o: int)
    requires |v0| == 16 && 1 <= w
    requires var n := Min(w, 16);
             Inside(p, so, n, 16, output.Length) && (n == 1 || so >= 16) && first == Cell(p, so, n - 1, 0)
    modifies output
    ensures Walk(output[..], old(output[..]), p, so, Min(w, 16), v0, 0, o)
  {
    ghost var n, before := Min(w, 16), output[..];
    WalkStart(output, first, so, v0[15], p, n, v0);
    o := WalkStep(output, first, w > 15, so, v0[14], before, p, n, v0, 14);
    o := WalkStep(output, o, w >= 15, so, v0[13], before, p, n, v0, 13);
    o := WalkStep(output, o, w > 13, so, v0[12], before, p, n, v0, 12);
    o := StoreMiddle(output, o, so, w, v0, before, p);
    o := WalkStep(output, o, w >= 5, so, v0[3], before, p, n, v0, 3);
    o := WalkStep(output, o, w > 3, so, v0[2], before, p, n, v0, 2);
    o := WalkStep(output, o, w >= 3, so, v0[1], before, p, n, v0, 1);
    o := WalkStep(output, o, w > 1, so, v0[0], before, p, n, v0, 0);
  }

  method StoreMiddle(output: array<Byte>, from: int, so: int, w: int, v0: seq<Vec>, ghost before: seq<Byte>, ghost p: int)
    returns (o: int)
    requires |v0| == 16 && 1 <= w && (Min(w, 16) == 1 || so >= 16)
    requires Walk(output[..], before, p, so, Min(w, 16), v0, 12, from)
    modifies output
    ensures Walk(output[..], before, p, so, Min(w, 16), v0, 4, o)
  {
    ghost var n := Min(w, 16);
    o := WalkStep(output, from, w >= 13, so, v0[11], before, p, n, v0, 11);
    o := WalkStep(output, o, w > 11, so, v0[10], before, p, n, v0, 10);
    o := WalkStep(output, o, w >= 11, so, v0[9], before, p, n, v0, 9);
    o := WalkStep(output, o, w > 9, so, v0[8], before, p, n, v0, 8);
    o := WalkStep(output, o, w >= 9, so, v0[7], before, p, n, v0, 7);
    o := WalkStep(output, o, w > 7, so, v0[6], before, p, n, v0, 6);
    o := WalkStep(output, o, w >= 7, so, v0[5], before, p, n, v0, 5);
    o := WalkStep(output, o, w > 5, so, v0[4], before, p, n, v0, 4);
  }

  lemma CornerCell(base: int, stride: int, c0: int, r0: int, i: int, k: int)
    ensures Cell(base, stride, c0 + i, r0 + k) == Cell(Cell(base, stride, c0, r0), stride, i, k)
    ensures Cell(Cell(base, stride, c0, r0), stride, i, k) == Cell(Cell(base, stride, c0, r0), stride, i, 0) + k
  {
    MulSum(c0, i, stride);
  }

  /** What one tile stored, in the coordinates of the whole block. */
  lemma TileCells(inp: seq<Byte>, junk: int -> Byte, ib: int, si: int, out: seq<Byte>, ob: int, so: int,
                  width: int, height: int, c0: int, r0: int, n: int)
    requires Inside(ib, si, height, width, |inp|)
    requires 0 <= c0 && 1 <= n <= 16 && c0 + n <= width && 0 <= r0 && r0 + 16 <= height
    requires forall c, k :: 0 <= c < n && 0 <= k < 16 ==>
               Peek(out, Cell(Cell(ob, so, c0, r0), so, c, k)) == Load(inp, junk, Cell(Cell(ib, si, r0, c0), si, k, 0))[c]
    ensures Transposed(inp, ib, si, out, ob, so, c0, c0 + n, r0, r0 + 16)
  {
    forall c, r | c0 <= c < c0 + n && r0 <= r < r0 + 16
      ensures Peek(out, Cell(ob, so, c, r)) == Peek(inp, Cell(ib, si, r, c))
    {
      var i, k := c - c0, r - r0;
      CornerCell(ob, so, c0, r0, i, k);
      CornerCell(ib, si, r0, c0, k, i);
      InsideCell(ib, si, height, width, |inp|, r, c);
      assert Peek(out, Cell(Cell(ob, so, c0, r0), so, i, k)) == Load(inp, junk, Cell(Cell(ib, si, r0, c0), si, k, 0))[i];
    }
  }

  /** Transpose a block of `blockWidth` columns and `blockHeight` rows, a multiple of 16, tile
      by tile.  Whatever lies past the block's width in memory is read but never kept; the
      farthest byte read is in the last row, at the end of the last group of 16 columns. */
  method Kernel(input: array<Byte>, junk: int -> Byte, inBase: int, output: array<Byte>, outBase: int,
                si: int, so: int, blockWidth: int, blockHeight: int, ghost reach: int)
    returns (ghost far: int)
    requires input != output
    requires 1 <= blockWidth && 16 <= blockHeight && blockHeight % 16 == 0
    requires blockWidth == 1 || so >= blockHeight
    requires Inside(inBase, si, blockHeight, blockWidth, input.Length)
    requires Inside(outBase, so, blockWidth, blockHeight, output.Length)
    modifies output
    ensures Transposed(input[..], inBase, si, output[..], outBase, so, 0, blockWidth, 0, blockHeight)
    ensures OnlyBlock(old(output[..]), output[..], outBase, so, blockWidth, blockHeight)
    ensures far == Max(reach, Cell(inBase, si, blockHeight - 1, RoundUp(blockWidth, 16)))
  {
    var inputReset := 16 - (blockHeight - blockHeight % 16) * si;
    var outputReset := 16 * so - (blockHeight - blockHeight % 2) - 16;
    var i0, o, width := inBase, outBase - 16, blockWidth;
    ghost var c0, inp, before, groups := 0, input[..], output[..], 0;
    far := reach;
    while width != 0
      invariant 0 <= c0 < blockWidth + 16 && c0 == 16 * groups && 0 <= width && width == Doz(blockWidth, c0)
      invariant far == if c0 == 0 then reach else Max(reach, Cell(inBase, si, blockHeight - 1, c0))
      invariant input[..] == inp
      invariant i0 == Cell(inBase, si, 0, c0) && o == Cell(outBase, so, c0, 0) - 16
      invariant Transposed(inp, inBase, si, output[..], outBase, so, 0, Min(c0, blockWidth), 0, blockHeight)
      invariant OnlyBlock(before, output[..], outBase, so, blockWidth, blockHeight)
      decreases width
    {
      i0, o, far := ColumnBlock(input, junk, inBase, i0, output, outBase, o, si, so, blockWidth, blockHeight, width, c0, before, far);
      o := o + 16;
      i0 := i0 + inputReset;
      o := o + outputReset;
      width := Doz(width, 16);
      ResetLands(inBase, outBase, si, so, blockHeight, c0);
      Even(blockHeight);
      c0, groups := c0 + 16, groups + 1;
    }
    LastGroup(blockWidth, groups);
  }

  lemma LastGroup(width: int, groups: int)
    requires width <= 16 * groups < width + 16
    ensures RoundUp(width, 16) == 16 * groups
  {
    assert (width + 15) / 16 == groups;
  }

  /** The pointer resets land on the next column block. */
  lemma ResetLands(ib: int, ob: int, si: int, so: int, height: int, c0: int)
    ensures Cell(ib, si, height, c0) + (16 - height * si) == Cell(ib, si, 0, c0 + 16)
    ensures Cell(ob, so, c0, height) + (16 * so - height - 16) == Cell(ob, so, c0 + 16, 0) - 16
  {
    MulSum(c0, 16, so);
  }

  lemma Even(n: int)
    requires n % 16 == 0
    ensures n % 2 == 0
  {
    var q := n / 16;
    assert n == 16 * q;
    assert n == 2 * (8 * q);
  }

  /** One more tile of a column group is in place. */
  lemma TileStep(inp: seq<Byte>, junk: int -> Byte, ib: int, si: int, before: seq<Byte>, mem: seq<Byte>, out: seq<Byte>,
                 ob: int, so: int, width: int, height: int, c0: int, r0: int, n: int)
    requires Inside(ib, si, height, width, |inp|) && Inside(ob, so, width, height, |mem|)
    requires width == 1 || so >= height
    requires 0 <= c0 && 1 <= n <= 16 && c0 + n <= width && 0 <= r0 && r0 + 16 <= height
    requires forall c, k :: 0 <= c < n && 0 <= k < 16 ==>
               Peek(out, Cell(Cell(ob, so, c0, r0), so, c, k)) == Load(inp, junk, Cell(Cell(ib, si, r0, c0), si, k, 0))[c]
    requires OnlyBlock(mem, out, Cell(ob, so, c0, r0), so, n, 16)
    requires OnlyBlock(before, mem, ob, so, width, height)
    requires Transposed(inp, ib, si, mem, ob, so, 0, c0, 0, height)
    requires Transposed(inp, ib, si, mem, ob, so, c0, c0 + n, 0, r0)
    ensures OnlyBlock(before, out, ob, so, width, height)
    ensures Transposed(inp, ib, si, out, ob, so, 0, c0, 0, height)
    ensures Transposed(inp, ib, si, out, ob, so, c0, c0 + n, 0, r0 + 16)
  {
    TileCells(inp, junk, ib, si, out, ob, so, width, height, c0, r0, n);
    TransposedKeeps(inp, ib, si, mem, out, ob, so, width, height, c0, r0, n, 16, 0, c0, 0, height);
    TransposedKeeps(inp, ib, si, mem, out, ob, so, width, height, c0, r0, n, 16, c0, c0 + n, 0, r0);
    OnlyBlockWiden(before, mem, out, ob, so, width, height, c0, r0, n, 16);
  }

  /** One tile, in the coordinates of the whole block. */
  method NextTile(input: array<Byte>, junk: int -> Byte, ghost inBase: int, start: int, output: array<Byte>,
                  ghost outBase: int, at: int, si: int, so: int, ghost blockWidth: int, ghost blockHeight: int,
                  width: int, ghost c0: int, ghost r0: int, ghost before: seq<Byte>, ghost reach: int)
    returns (i0: int, o: int, ghost far: int)
    requires input != output && (blockWidth == 1 || so >= blockHeight)
    requires 0 <= c0 && 1 <= width && width == blockWidth - c0 && 0 <= r0 && r0 + 16 <= blockHeight
    requires Inside(inBase, si, blockHeight, blockWidth, input.Length)
    requires Inside(outBase, so, blockWidth, blockHeight, output.Length)
    requires start == Cell(inBase, si, r0, c0) && at == Cell(outBase, so, c0, r0) - 16
    requires Transposed(input[..], inBase, si, output[..], outBase, so, 0, c0, 0, blockHeight)
    requires Transposed(input[..], inBase, si, output[..], outBase, so, c0, c0 + Min(width, 16), 0, r0)
    requires OnlyBlock(before, output[..], outBase, so, blockWidth, blockHeight)
    modifies output
    ensures i0 == Cell(inBase, si, r0 + 16, c0) && o == Cell(outBase, so, c0, r0 + 16) - 16
    ensures far == Max(reach, Cell(Cell(inBase, si, 0, c0), si, r0 + 15, 16))
    ensures Transposed(input[..], inBase, si, output[..], outBase, so, 0, c0, 0, blockHeight)
    ensures Transposed(input[..], inBase, si, output[..], outBase, so, c0, c0 + Min(width, 16), 0, r0 + 16)
    ensures OnlyBlock(before, output[..], outBase, so, blockWidth, blockHeight)
  {
    ghost var inp, n, mem := input[..], Min(width, 16), output[..];
    InsideBlock(outBase, so, blockWidth, blockHeight, output.Length, c0, r0, n, 16);
    i0, o, far := Tile(input, junk, start, output, at, si, so, width, reach);
    assert input[..] == inp;
    MulSum(r0, 16, si);
    MulSum(r0, 15, si);
    TileStep(inp, junk, inBase, si, before, mem, output[..], outBase, so, blockWidth, blockHeight, c0, r0, n);
  }

  /** All tiles of one group of at most 16 columns. */
  method ColumnBlock(input: array<Byte>, junk: int -> Byte, ghost inBase: int, start: int, output: array<Byte>,
                     ghost outBase: int, at: int, si: int, so: int, ghost blockWidth: int, blockHeight: int,
                     width: int, ghost c0: int, ghost before: seq<Byte>, ghost reach: int)
    returns (i0: int, o: int, ghost far: int)
    requires input != output
    requires 16 <= blockHeight && blockHeight % 16 == 0 && (blockWidth == 1 || so >= blockHeight)
    requires 0 <= c0 && 1 <= width && width == blockWidth - c0
    requires Inside(inBase, si, blockHeight, blockWidth, input.Length)
    requires Inside(outBase, so, blockWidth, blockHeight, output.Length)
    requires start == Cell(inBase, si, 0, c0) && at == Cell(outBase, so, c0, 0) - 16
    requires Transposed(input[..], inBase, si, output[..], outBase, so, 0, c0, 0, blockHeight)
    requires OnlyBlock(before, output[..], outBase, so, blockWidth, blockHeight)
    modifies output
    ensures i0 == Cell(inBase, si, blockHeight, c0) && o == Cell(outBase, so, c0, blockHeight) - 16
    ensures far == Max(reach, Cell(inBase, si, blockHeight - 1, c0 + 16))
    ensures Transposed(input[..], inBase, si, output[..], outBase, so, 0, c0 + Min(width, 16), 0, blockHeight)
    ensures OnlyBlock(before, output[..], outBase, so, blockWidth, blockHeight)
  {
    ghost var inp, n := input[..], Min(width, 16);
    i0, o, far := start, at, reach;
    var bh := blockHeight;
    ghost var r0, tiles := 0, blockHeight / 16;
    while bh >= 16
      invariant 0 <= bh <= blockHeight && bh == 16 * tiles && r0 == blockHeight - bh
      invariant input[..] == inp
      invariant i0 == Cell(inBase, si, r0, c0) && o == Cell(outBase, so, c0, r0) - 16
      invariant far == Farthest(reach, Cell(inBase, si, 0, c0), si, r0)
      invariant Transposed(inp, inBase, si, output[..], outBase, so, 0, c0, 0, blockHeight)
      invariant Transposed(inp, inBase, si, output[..], outBase, so, c0, c0 + n, 0, r0)
      invariant OnlyBlock(before, output[..], outBase, so, blockWidth, blockHeight)
    {
      FarthestStep(reach, Cell(inBase, si, 0, c0), si, r0, 16);
      i0, o, far := NextTile(input, junk, inBase, i0, output, outBase, o, si, so, blockWidth, blockHeight, width, c0, r0, before, far);
      bh := bh - 16;
      r0, tiles := r0 + 16, tiles - 1;
    }
  }
}
