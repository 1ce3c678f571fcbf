/**
 Row-major cells in flat byte memory.
 */
module Cells {
  import opened Common

  type Byte = bv8

  /** Address of column `r` of row `c` in a matrix that starts at `base`. */
  function Cell(base: int, stride: int, c: int, r: int): int {
    base + c * stride + r
  }

  /** Address `k` lies in the `rows` by `width` block whose corner is at `base`. */
  ghost predicate InBlock(k: int, base: int, stride: int, rows: int, width: int) {
    exists c, r :: 0 <= c < rows && 0 <= r < width && k == Cell(base, stride, c, r)
  }

  lemma CellInjective(stride: int, c1: int, r1: int, c2: int, r2: int)
    requires 0 <= r1 < stride && 0 <= r2 < stride
    requires c1 * stride + r1 == c2 * stride + r2
    ensures c1 == c2 && r1 == r2
  {
    if c1 < c2 {
      assert (c2 - c1) * stride >= stride by {
        MulMono(1, c2 - c1, stride);
      }
    } else if c2 < c1 {
      assert (c1 - c2) * stride >= stride by {
        MulMono(1, c1 - c2, stride);
      }
    }
  }

  lemma CellBound(stride: int, rows: int, c: int, r: int)
    requires 0 <= c < rows && 0 <= r < stride
    ensures 0 <= c * stride + r < rows * stride
  {
    MulMono(c + 1, rows, stride);
    MulMono(0, c, stride);
  }

  /** Every address of a row-major matrix is one of its cells. */
  lemma CellSplit(stride: int, rows: int, k: int) returns (c: int, r: int)
    requires 0 < stride && 0 <= k < rows * stride
    ensures 0 <= c < rows && 0 <= r < stride && k == c * stride + r
  {
    c, r := k / stride, k % stride;
    assert k == c * stride + r;
    if c >= rows {
      MulMono(rows, c, stride);
    }
  }

  /** A cell of the outer block that lies in an inner block lies there by its coordinates. */
  lemma BlockCoords(base: int, stride: int, rows: int, width: int, c: int, r: int,
                    c0: int, r0: int, n: int, w: int)
    requires rows == 1 || stride >= width
    requires 0 <= c < rows && 0 <= r < width
    requires 0 <= c0 && c0 + n <= rows && 0 <= r0 && r0 + w <= width
    ensures InBlock(Cell(base, stride, c, r), Cell(base, stride, c0, r0), stride, n, w) ==>
              c0 <= c < c0 + n && r0 <= r < r0 + w
  {
    var k, corner := Cell(base, stride, c, r), Cell(base, stride, c0, r0);
    if InBlock(k, corner, stride, n, w) {
      var i, j :| 0 <= i < n && 0 <= j < w && k == Cell(corner, stride, i, j);
      assert c * stride + r == (c0 + i) * stride + (r0 + j);
      if rows > 1 {
        CellInjective(stride, c, r, c0 + i, r0 + j);
      } else {
        assert c == 0 && c0 == 0 && i == 0;
      }
    }
  }

  /** A cell of an inner block is a cell of the outer one. */
  lemma BlockWithin(base: int, stride: int, c0: int, r0: int, n: int, w: int, rows: int, width: int, k: int)
    requires 0 <= c0 && c0 + n <= rows && 0 <= r0 && r0 + w <= width
    requires InBlock(k, Cell(base, stride, c0, r0), stride, n, w)
    ensures InBlock(k, base, stride, rows, width)
  {
    var i, j :| 0 <= i < n && 0 <= j < w && k == Cell(Cell(base, stride, c0, r0), stride, i, j);
    assert k == Cell(base, stride, c0 + i, r0 + j);
  }

  /** Byte at address `k`; out of range reads as zero. */
  function Peek(mem: seq<Byte>, k: int): Byte {
    if 0 <= k < |mem| then mem[k] else 0
  }

  /** The block lies in a memory of `len` bytes. */
  predicate Inside(base: int, stride: int, rows: int, width: int, len: int) {
    0 <= base && 0 <= stride && 1 <= rows && 1 <= width && Cell(base, stride, rows - 1, width - 1) < len
  }

  lemma InsideCell(base: int, stride: int, rows: int, width: int, len: int, c: int, r: int)
    requires Inside(base, stride, rows, width, len) && 0 <= c < rows && 0 <= r < width
    ensures 0 <= Cell(base, stride, c, r) < len
  {
    MulMono(c, rows - 1, stride);
    MulMono(0, c, stride);
  }

  lemma InsideBlock(base: int, stride: int, rows: int, width: int, len: int, c0: int, r0: int, n: int, w: int)
    requires Inside(base, stride, rows, width, len)
    requires 0 <= c0 && 1 <= n && c0 + n <= rows && 0 <= r0 && 1 <= w && r0 + w <= width
    ensures Inside(Cell(base, stride, c0, r0), stride, n, w, len)
  {
    InsideCell(base, stride, rows, width, len, c0, r0);
    InsideCell(base, stride, rows, width, len, c0 + n - 1, r0 + w - 1);
    assert Cell(Cell(base, stride, c0, r0), stride, n - 1, w - 1) == Cell(base, stride, c0 + n - 1, r0 + w - 1);
  }

  /** Rows `c` in [c0, c1) and columns `r` in [r0, r1) of the output block hold the
      transposed cells of the input block. */
  ghost predicate Transposed(inp: seq<Byte>, ib: int, si: int, out: seq<Byte>, ob: int, so: int,
                             c0: int, c1: int, r0: int, r1: int) {
    forall c, r :: c0 <= c < c1 && r0 <= r < r1 ==> Peek(out, Cell(ob, so, c, r)) == Peek(inp, Cell(ib, si, r, c))
  }

  /** Only the given block of the memory changed. */
  ghost predicate OnlyBlock(before: seq<Byte>, after: seq<Byte>, base: int, stride: int, rows: int, width: int) {
    && |after| == |before|
    && forall k :: 0 <= k < |before| && !InBlock(k, base, stride, rows, width) ==> after[k] == before[k]
  }

  /** Writing an inner block leaves what is transposed outside of it transposed. */
  lemma TransposedKeeps(inp: seq<Byte>, ib: int, si: int, out: seq<Byte>, out': seq<Byte>, ob: int, so: int,
                        rows: int, width: int, c0: int, r0: int, n: int, w: int, a0: int, a1: int, b0: int, b1: int)
    requires Inside(ob, so, rows, width, |out|) && (rows == 1 || so >= width)
    requires 0 <= c0 && c0 + n <= rows && 0 <= r0 && r0 + w <= width
    requires 0 <= a0 && a1 <= rows && 0 <= b0 && b1 <= width
    requires a1 <= c0 || c0 + n <= a0 || b1 <= r0 || r0 + w <= b0
    requires OnlyBlock(out, out', Cell(ob, so, c0, r0), so, n, w)
    requires Transposed(inp, ib, si, out, ob, so, a0, a1, b0, b1)
    ensures Transposed(inp, ib, si, out', ob, so, a0, a1, b0, b1)
  {
    forall c, r | a0 <= c < a1 && b0 <= r < b1
      ensures Peek(out', Cell(ob, so, c, r)) == Peek(inp, Cell(ib, si, r, c))
    {
      BlockCoords(ob, so, rows, width, c, r, c0, r0, n, w);
      InsideCell(ob, so, rows, width, |out|, c, r);
      assert Peek(out, Cell(ob, so, c, r)) == Peek(inp, Cell(ib, si, r, c));
    }
  }

  lemma OnlyBlockWiden(a: seq<Byte>, b: seq<Byte>, c: seq<Byte>, base: int, stride: int, rows: int, width: int,
                       c0: int, r0: int, n: int, w: int)
    requires OnlyBlock(a, b, base, stride, rows, width)
    requires OnlyBlock(b, c, Cell(base, stride, c0, r0), stride, n, w)
    requires 0 <= c0 && c0 + n <= rows && 0 <= r0 && r0 + w <= width
    ensures OnlyBlock(a, c, base, stride, rows, width)
  {
    forall k | 0 <= k < |a| && !InBlock(k, base, stride, rows, width)
      ensures c[k] == a[k]
    {
      if InBlock(k, Cell(base, stride, c0, r0), stride, n, w) {
        BlockWithin(base, stride, c0, r0, n, w, rows, width, k);
      }
    }
  }

  // ----- Elements of several bytes -----

  /** Address of element `r` of row `c`, elements being `es` bytes wide. */
  function Slot(base: int, stride: int, es: int, c: int, r: int): int {
    Cell(base, stride, c, r * es)
  }

  /** The `es` bytes at address `a`. */
  function Elem(mem: seq<Byte>, a: int, es: nat): seq<Byte> {
    seq(es, b requires 0 <= b < es => Peek(mem, a + b))
  }

  /** Like `Transposed`, for elements of `es` bytes. */
  ghost predicate TransposedElems(es: nat, inp: seq<Byte>, ib: int, si: int, out: seq<Byte>, ob: int, so: int,
                                  c0: int, c1: int, r0: int, r1: int) {
    forall c, r :: c0 <= c < c1 && r0 <= r < r1 ==> Elem(out, Slot(ob, so, es, c, r), es) == Elem(inp, Slot(ib, si, es, r, c), es)
  }

  /** Writing an inner block of elements leaves what is transposed outside of it transposed. */
  lemma ElemsKeep(es: nat, inp: seq<Byte>, ib: int, si: int, out: seq<Byte>, out': seq<Byte>, ob: int, so: int,
                  rows: int, width: int, c0: int, r0: int, n: int, w: int, a0: int, a1: int, b0: int, b1: int)
    requires es > 0 && Inside(ob, so, rows, width * es, |out|) && (rows == 1 || so >= width * es)
    requires 0 <= c0 && c0 + n <= rows && 0 <= r0 && r0 + w <= width
    requires 0 <= a0 && a1 <= rows && 0 <= b0 && b1 <= width
    requires a1 <= c0 || c0 + n <= a0 || b1 <= r0 || r0 + w <= b0
    requires OnlyBlock(out, out', Slot(ob, so, es, c0, r0), so, n, w * es)
    requires TransposedElems(es, inp, ib, si, out, ob, so, a0, a1, b0, b1)
    ensures TransposedElems(es, inp, ib, si, out', ob, so, a0, a1, b0, b1)
  {
    forall c, r | a0 <= c < a1 && b0 <= r < b1
      ensures Elem(out', Slot(ob, so, es, c, r), es) == Elem(inp, Slot(ib, si, es, r, c), es)
    {
      assert Elem(out, Slot(ob, so, es, c, r), es) == Elem(inp, Slot(ib, si, es, r, c), es);
      ElemKept(es, out, out', ob, so, rows, width, c0, r0, n, w, c, r);
    }
  }

  lemma ElemKept(es: nat, out: seq<Byte>, out': seq<Byte>, ob: int, so: int, rows: int, width: int,
                 c0: int, r0: int, n: int, w: int, c: int, r: int)
    requires es > 0 && Inside(ob, so, rows, width * es, |out|) && (rows == 1 || so >= width * es)
    requires 0 <= c0 && c0 + n <= rows && 0 <= r0 && r0 + w <= width
    requires 0 <= c < rows && 0 <= r < width && !(c0 <= c < c0 + n && r0 <= r < r0 + w)
    requires OnlyBlock(out, out', Slot(ob, so, es, c0, r0), so, n, w * es)
    ensures Elem(out', Slot(ob, so, es, c, r), es) == Elem(out, Slot(ob, so, es, c, r), es)
  {
    var a := Slot(ob, so, es, c, r);
    forall b | 0 <= b < es
      ensures Elem(out', a, es)[b] == Elem(out, a, es)[b]
    {
      ElemByteKept(es, out, out', ob, so, rows, width, c0, r0, n, w, c, r, b);
    }
  }

  lemma ElemByteKept(es: nat, out: seq<Byte>, out': seq<Byte>, ob: int, so: int, rows: int, width: int,
                     c0: int, r0: int, n: int, w: int, c: int, r: int, b: int)
    requires 0 <= b < es && Inside(ob, so, rows, width * es, |out|) && (rows == 1 || so >= width * es)
    requires 0 <= c0 && c0 + n <= rows && 0 <= r0 && r0 + w <= width
    requires 0 <= c < rows && 0 <= r < width && !(c0 <= c < c0 + n && r0 <= r < r0 + w)
    requires OnlyBlock(out, out', Slot(ob, so, es, c0, r0), so, n, w * es)
    ensures var a := Slot(ob, so, es, c, r) + b; Peek(out', a) == Peek(out, a)
  {
    assert Slot(ob, so, es, c, r) + b == Cell(ob, so, c, r * es + b);
    CellBound(es, width, r, b);
    MulMono(0, r0, es);
    MulMono(r0 + w, width, es);
    MulSum(r0, w, es);
    BlockCoords(ob, so, rows, width * es, c, r * es + b, c0, r0 * es, n, w * es);
    InsideCell(ob, so, rows, width * es, |out|, c, r * es + b);
    ElemRange(es, r, b, r0, w);
  }

  lemma ElemRange(es: int, r: int, b: int, r0: int, w: int)
    requires 0 <= b < es
    ensures r0 * es <= r * es + b < r0 * es + w * es ==> r0 <= r < r0 + w
  {
    MulSum(r0, w, es);
    if r < r0 {
      MulMono(r + 1, r0, es);
      MulSum(r, 1, es);
    } else if r >= r0 + w {
      MulMono(r0 + w, r, es);
    }
  }

  /** Elements of one byte. */
  lemma ByteElems(inp: seq<Byte>, ib: int, si: int, out: seq<Byte>, ob: int, so: int, c0: int, c1: int, r0: int, r1: int)
    requires Transposed(inp, ib, si, out, ob, so, c0, c1, r0, r1)
    ensures TransposedElems(1, inp, ib, si, out, ob, so, c0, c1, r0, r1)
  {
    forall c, r | c0 <= c < c1 && r0 <= r < r1
      ensures Elem(out, Slot(ob, so, 1, c, r), 1) == Elem(inp, Slot(ib, si, 1, r, c), 1)
    {
      assert Peek(out, Cell(ob, so, c, r)) == Peek(inp, Cell(ib, si, r, c));
    }
  }

  /** Overwriting row `row` of a block. */
  lemma RowStored(mem: seq<Byte>, mem': seq<Byte>, before: seq<Byte>, p: int, so: int, n: int, width: int, row: int, v: seq<Byte>)
    requires 1 <= n && 0 <= row < n && Inside(p, so, n, width, |before|) && (n == 1 || so >= width) && |v| == width
    requires OnlyBlock(before, mem, p, so, n, width) && |mem'| == |mem|
    requires var o := Cell(p, so, row, 0);
             forall k :: 0 <= k < |mem| ==> mem'[k] == if o <= k < o + width then v[k - o] else mem[k]
    ensures OnlyBlock(before, mem', p, so, n, width)
    ensures forall k :: 0 <= k < width ==> Peek(mem', Cell(p, so, row, k)) == v[k]
    ensures forall i, k :: 0 <= i < n && i != row && 0 <= k < width ==>
              Peek(mem', Cell(p, so, i, k)) == Peek(mem, Cell(p, so, i, k))
  {
    var o := Cell(p, so, row, 0);
    forall k | 0 <= k < |before| && !InBlock(k, p, so, n, width)
      ensures mem'[k] == before[k]
    {
      if o <= k < o + width {
        assert k == Cell(p, so, row, k - o);
      }
    }
    forall k | 0 <= k < width
      ensures Peek(mem', Cell(p, so, row, k)) == v[k]
    {
      InsideCell(p, so, n, width, |before|, row, k);
    }
    forall i, k | 0 <= i < n && i != row && 0 <= k < width
      ensures Peek(mem', Cell(p, so, i, k)) == Peek(mem, Cell(p, so, i, k))
    {
      InsideCell(p, so, n, width, |before|, i, k);
      var a := Cell(p, so, i, k);
      if o <= a < o + width {
        CellInjective(so, i, k, row, a - o);
      }
    }
  }
}
