/**
 The cache-tiled transpose over whole matrices of 1- or 4-byte elements.
 */
module XnnTranspose {
  import opened Common
  import opened Cells
  import X8 = TransposeX8
  import X32 = TransposeX32

  const MACRO_BLOCK_X8: int := 128
  const MACRO_BLOCK_X32: int := 64
  const MACRO_TILE_THRESHOLD: int := 32 * 1024

  /** Buffers large enough for a `rows` by `cols` matrix of `es`-byte elements. */
  predicate Fits(es: nat, rows: int, cols: int, inLen: int, outLen: int) {
    && 1 <= es && 1 <= rows && 1 <= cols
    && Inside(0, cols * es, rows, cols * es, inLen)
    && Inside(0, rows * es, cols, rows * es, outLen)
  }

  /** Cells [c0, c1) x [r0, r1) of the output matrix hold the transposed input. */
  ghost predicate Region(es: nat, inp: seq<Byte>, out: seq<Byte>, rows: int, cols: int, c0: int, c1: int, r0: int, r1: int) {
    TransposedElems(es, inp, 0, cols * es, out, 0, rows * es, c0, c1, r0, r1)
  }

  /** Only cells [c0, c0 + n) x [r0, r0 + w) of the output matrix changed. */
  ghost predicate OnlyRegion(es: nat, before: seq<Byte>, after: seq<Byte>, rows: int, c0: int, r0: int, n: int, w: int) {
    OnlyBlock(before, after, Slot(0, rows * es, es, c0, r0), rows * es, n, w * es)
  }

  lemma RegionKeep(es: nat, inp: seq<Byte>, out: seq<Byte>, out': seq<Byte>, rows: int, cols: int,
                   c0: int, r0: int, n: int, w: int, a0: int, a1: int, b0: int, b1: int)
    requires Fits(es, rows, cols, |inp|, |out|)
    requires 0 <= c0 && c0 + n <= cols && 0 <= r0 && r0 + w <= rows
    requires 0 <= a0 && a1 <= cols && 0 <= b0 && b1 <= rows
    requires a1 <= c0 || c0 + n <= a0 || b1 <= r0 || r0 + w <= b0
    requires OnlyRegion(es, out, out', rows, c0, r0, n, w)
    requires Region(es, inp, out, rows, cols, a0, a1, b0, b1)
    ensures Region(es, inp, out', rows, cols, a0, a1, b0, b1)
  {
    ElemsKeep(es, inp, 0, cols * es, out, out', 0, rows * es, cols, rows, c0, r0, n, w, a0, a1, b0, b1);
  }

  lemma RegionWiden(es: nat, a: seq<Byte>, b: seq<Byte>, c: seq<Byte>, rows: int,
                    c0: int, r0: int, n: int, w: int, i: int, j: int, m: int, v: int)
    requires 1 <= es && OnlyRegion(es, a, b, rows, c0, r0, n, w) && OnlyRegion(es, b, c, rows, i, j, m, v)
    requires c0 <= i && i + m <= c0 + n && r0 <= j && j + v <= r0 + w
    ensures OnlyRegion(es, a, c, rows, c0, r0, n, w)
  {
    SlotShift(0, rows * es, es, c0, r0, i - c0, j - r0);
    MulMono(0, j - r0, es);
    MulMono(j - r0 + v, w, es);
    MulSum(j - r0, v, es);
    OnlyBlockWiden(a, b, c, Slot(0, rows * es, es, c0, r0), rows * es, n, w * es, i - c0, (j - r0) * es, m, v * es);
  }

  lemma SlotShift(base: int, stride: int, es: int, c0: int, r0: int, c: int, r: int)
    ensures Slot(Slot(base, stride, es, c0, r0), stride, es, c, r) == Slot(base, stride, es, c0 + c, r0 + r)
  {
    MulSum(c0, c, stride);
    MulSum(r0, r, es);
  }

  /** A block transposed in its own coordinates is transposed in those of the matrix. */
  lemma RegionOfBlock(es: nat, inp: seq<Byte>, out: seq<Byte>, rows: int, cols: int, c0: int, r0: int, n: int, w: int)
    requires TransposedElems(es, inp, Slot(0, cols * es, es, r0, c0), cols * es, out, Slot(0, rows * es, es, c0, r0), rows * es, 0, n, 0, w)
    ensures Region(es, inp, out, rows, cols, c0, c0 + n, r0, r0 + w)
  {
    forall c, r | c0 <= c < c0 + n && r0 <= r < r0 + w
      ensures Elem(out, Slot(0, rows * es, es, c, r), es) == Elem(inp, Slot(0, cols * es, es, r, c), es)
    {
      SlotShift(0, rows * es, es, c0, r0, c - c0, r - r0);
      SlotShift(0, cols * es, es, r0, c0, r - r0, c - c0);
      var ob, ib := Slot(0, rows * es, es, c0, r0), Slot(0, cols * es, es, r0, c0);
      assert Elem(out, Slot(ob, rows * es, es, c - c0, r - r0), es) == Elem(inp, Slot(ib, cols * es, es, r - r0, c - c0), es);
    }
  }

  /** Inner blocks of the matrices are inside the buffers. */
  lemma BlockInside(es: nat, rows: int, cols: int, inLen: int, outLen: int, c0: int, r0: int, n: int, w: int)
    requires Fits(es, rows, cols, inLen, outLen)
    requires 0 <= c0 && 1 <= n && c0 + n <= cols && 0 <= r0 && 1 <= w && r0 + w <= rows
    ensures Inside(Slot(0, cols * es, es, r0, c0), cols * es, w, n * es, inLen)
    ensures Inside(Slot(0, rows * es, es, c0, r0), rows * es, n, w * es, outLen)
    ensures w * es <= rows * es
  {
    MulMono(0, c0, es);
    MulMono(0, r0, es);
    MulMono(1, n, es);
    MulMono(1, w, es);
    MulMono(c0 + n, cols, es);
    MulMono(r0 + w, rows, es);
    MulSum(c0, n, es);
    MulSum(r0, w, es);
    InsideBlock(0, cols * es, rows, cols * es, inLen, r0, c0 * es, w, n * es);
    InsideBlock(0, rows * es, cols, rows * es, outLen, c0, r0 * es, n, w * es);
  }

  // ----- Scalar loops -----

  /** Copy the element at row `r`, column `c` of the input to row `c`, column `r` of the output. */
  method CopyElement(es: nat, input: array<Byte>, output: array<Byte>, rows: int, cols: int, c: int, r: int)
    requires input != output && Fits(es, rows, cols, input.Length, output.Length) && 0 <= c < cols && 0 <= r < rows
    modifies output
    ensures OnlyRegion(es, old(output[..]), output[..], rows, c, r, 1, 1)
    ensures Region(es, input[..], output[..], rows, cols, c, c + 1, r, r + 1)
  {
    BlockInside(es, rows, cols, input.Length, output.Length, c, r, 1, 1);
    CopyBytes(es, input, Slot(0, cols * es, es, r, c), output, Slot(0, rows * es, es, c, r), rows * es, cols * es);
  }

  /** Copy the `es` bytes at `src` to `dst`. */
  method CopyBytes(es: nat, input: array<Byte>, src: int, output: array<Byte>, dst: int, ghost so: int, ghost si: int)
    requires input != output && 1 <= es
    requires Inside(dst, so, 1, 1 * es, output.Length) && Inside(src, si, 1, 1 * es, input.Length)
    modifies output
    ensures OnlyBlock(old(output[..]), output[..], dst, so, 1, 1 * es)
    ensures Elem(output[..], dst, es) == Elem(input[..], src, es)
  {
    InsideElem(dst, so, es, output.Length);
    InsideElem(src, si, es, input.Length);
    ghost var before := output[..];
    forall b | 0 <= b < es {
      output[dst + b] := input[src + b];
    }
    forall k | 0 <= k < output.Length && !InBlock(k, dst, so, 1, 1 * es)
      ensures output[k] == before[k]
    {
      FirstRow(k, dst, so, es);
    }
    forall b | 0 <= b < es
      ensures Elem(output[..], dst, es)[b] == Elem(input[..], src, es)[b]
    {
      assert output[dst + b] == input[src + b];
      assert Peek(output[..], dst + b) == output[dst + b];
      assert Peek(input[..], src + b) == input[src + b];
    }
  }

  lemma FirstRow(k: int, base: int, stride: int, width: int)
    ensures base <= k < base + width ==> InBlock(k, base, stride, 1, 1 * width)
  {
    if base <= k < base + width {
      assert k == Cell(base, stride, 0, k - base);
    }
  }

  lemma InsideElem(a: int, stride: int, es: nat, len: int)
    requires 1 <= es && Inside(a, stride, 1, 1 * es, len)
    ensures 0 <= a && a + es <= len
  {
    assert Cell(a, stride, 0, es - 1) == a + es - 1;
  }

  /** Copy cells [ca, cb) x [ra, rb) one by one. */
  method ScalarRegion(es: nat, input: array<Byte>, output: array<Byte>, rows: int, cols: int, ca: int, cb: int, ra: int, rb: int)
    requires input != output && Fits(es, rows, cols, input.Length, output.Length)
    requires 0 <= ca <= cb <= cols && 0 <= ra <= rb <= rows
    modifies output
    ensures Region(es, input[..], output[..], rows, cols, ca, cb, ra, rb)
    ensures OnlyRegion(es, old(output[..]), output[..], rows, ca, ra, cb - ca, rb - ra)
  {
    ghost var inp, before := input[..], output[..];
    var r := ra;
    while r < rb
      invariant ra <= r <= rb && input[..] == inp
      invariant Region(es, inp, output[..], rows, cols, ca, cb, ra, r)
      invariant OnlyRegion(es, before, output[..], rows, ca, ra, cb - ca, rb - ra)
    {
      var c := ca;
      while c < cb
        invariant ca <= c <= cb && input[..] == inp
        invariant Region(es, inp, output[..], rows, cols, ca, cb, ra, r)
        invariant Region(es, inp, output[..], rows, cols, ca, c, r, r + 1)
        invariant OnlyRegion(es, before, output[..], rows, ca, ra, cb - ca, rb - ra)
      {
        ghost var mem := output[..];
        CopyElement(es, input, output, rows, cols, c, r);
        RegionKeep(es, inp, mem, output[..], rows, cols, c, r, 1, 1, ca, cb, ra, r);
        RegionKeep(es, inp, mem, output[..], rows, cols, c, r, 1, 1, ca, c, r, r + 1);
        RegionWiden(es, before, mem, output[..], rows, ca, ra, cb - ca, rb - ra, c, r, 1, 1);
        c := c + 1;
      }
      r := r + 1;
    }
  }

  // ----- How far vector loads reach -----

  /** The end of the farthest byte load for the first `n` rows: the last row of full tiles, up to
      the end of its last group of 16 columns. */
  function ByteReach(n: int, cols: int): int {
    if n < 16 then 0 else Cell(0, cols, n - n % 16 - 1, RoundUp(cols, 16))
  }

  /** The byte path reads inside the matrix if and only if it uses no tile, or the rows that are
      left over make up for the columns that are read too far. */
  lemma ByteReadsInside(rows: int, cols: int)
    requires rows > 1 && cols > 1
    ensures ByteReach(rows, cols) <= TotalBytes(rows, cols, 1) <==> rows < 16 || RoundUp(cols, 16) <= (rows % 16 + 1) * cols
  {
    var full := rows - rows % 16;
    MulSum(full - 1, rows % 16 + 1, cols);
    assert rows * cols * 1 == rows * cols;
    if rows < 16 {
      MulMono(0, rows, cols);
    }
  }

  /** A 16 by 17 matrix is read 15 bytes too far. */
  lemma ByteReadsPastEnd()
    ensures ByteReach(16, 17) == TotalBytes(16, 17, 1) + 15
  {
  }

  lemma RoundUpFacts(n: int)
    ensures n <= RoundUp(n, 16) < n + 16
  {
  }

  lemma RoundUpShift(c0: int, n: int)
    requires c0 % 16 == 0
    ensures c0 + RoundUp(n, 16) == RoundUp(c0 + n, 16)
  {
    var q := c0 / 16;
    assert c0 == 16 * q;
    assert (c0 + n + 15) / 16 == q + (n + 15) / 16;
  }

  /** A tile further down reaches further, whatever its columns. */
  lemma ReachGrows(cols: int, r: int, full: int, x: int)
    requires cols >= 1 && full >= 16 && x >= 16
    ensures Cell(0, cols, r - 1, RoundUp(cols, 16)) <= Cell(0, cols, r + full - 1, x)
  {
    RoundUpFacts(cols);
    MulSum(r - 1, full, cols);
    MulMono(16, full, cols);
  }

  /** How far the loads have reached when the columns before `c` of rows `r0` to `r0 + bh` are done. */
  ghost function RowReach(r0: int, bh: int, c: int, cols: int): int {
    if bh < 16 || c <= 0 then ByteReach(r0, cols) else Cell(0, cols, r0 + bh - bh % 16 - 1, RoundUp(c, 16))
  }

  /** One more block of a row of blocks. */
  lemma RowReachStep(r0: int, bh: int, c0: int, bw: int, cols: int)
    requires 0 <= r0 && r0 % 16 == 0 && 0 <= c0 && c0 % 16 == 0 && 1 <= bw && 1 <= cols
    ensures RowReach(r0, bh, c0 + bw, cols)
            == if bh < 16 then RowReach(r0, bh, c0, cols)
               else Max(RowReach(r0, bh, c0, cols), Cell(0, cols, r0 + bh - bh % 16 - 1, c0 + RoundUp(bw, 16)))
  {
    if bh >= 16 {
      RoundUpShift(c0, bw);
      RoundUpFacts(c0);
      RoundUpFacts(c0 + bw);
      RoundUpFacts(bw);
      if c0 == 0 {
        ReachFirstColumn(r0, bh, bw, cols);
      }
    }
  }

  lemma ReachFirstColumn(r0: int, bh: int, bw: int, cols: int)
    requires 0 <= r0 && r0 % 16 == 0 && bh >= 16 && 1 <= bw && 1 <= cols
    ensures ByteReach(r0, cols) <= Cell(0, cols, r0 + bh - bh % 16 - 1, RoundUp(bw, 16))
  {
    var full := bh - bh % 16;
    assert full >= 16;
    assert RoundUp(bw, 16) >= 16;
    if r0 >= 16 {
      ReachGrows(cols, r0, full, RoundUp(bw, 16));
    } else {
      MulMono(0, full - 1, cols);
    }
  }

  /** A row of blocks is done. */
  lemma RowReachDone(r0: int, bh: int, cols: int)
    requires 0 <= r0 && r0 % 16 == 0 && 1 <= bh && 1 <= cols
    ensures RowReach(r0, bh, cols, cols) == ByteReach(r0 + bh, cols)
  {
    assert (r0 + bh) % 16 == bh % 16;
  }

  // ----- One block -----

  /** Transpose the `bh` by `bw` block of the input at row `r0`, column `c0`: full micro tiles
      by the vector kernel, the rest by scalar loops. */
  method TransposeBlock(es: nat, input: array<Byte>, junk: int -> Byte, output: array<Byte>, rows: int, cols: int,
                        r0: int, c0: int, bh: int, bw: int, ghost reach: int)
    returns (ghost far: int)
    requires (es == 1 || es == 4) && input != output && Fits(es, rows, cols, input.Length, output.Length)
    requires 0 <= c0 && 1 <= bw && c0 + bw <= cols && 0 <= r0 && 1 <= bh && r0 + bh <= rows
    modifies output
    ensures Region(es, input[..], output[..], rows, cols, c0, c0 + bw, r0, r0 + bh)
    ensures OnlyRegion(es, old(output[..]), output[..], rows, c0, r0, bw, bh)
    ensures es == 1 ==> far == if bh < 16 then reach else Max(reach, Cell(0, cols, r0 + bh - bh % 16 - 1, c0 + RoundUp(bw, 16)))
    ensures es == 4 ==> far <= Max(reach, TotalBytes(rows, cols, 4))
  {
    if es == 1 {
      far := ByteBlock(input, junk, output, rows, cols, r0, c0, bh, bw, reach);
    } else {
      far := WordBlock(input, junk, output, rows, cols, r0, c0, bh, bw, reach);
    }
  }

  method ByteBlock(input: array<Byte>, junk: int -> Byte, output: array<Byte>, rows: int, cols: int,
                   r0: int, c0: int, bh: int, bw: int, ghost reach: int)
    returns (ghost far: int)
    requires input != output && Fits(1, rows, cols, input.Length, output.Length)
    requires 0 <= c0 && 1 <= bw && c0 + bw <= cols && 0 <= r0 && 1 <= bh && r0 + bh <= rows
    modifies output
    ensures Region(1, input[..], output[..], rows, cols, c0, c0 + bw, r0, r0 + bh)
    ensures OnlyRegion(1, old(output[..]), output[..], rows, c0, r0, bw, bh)
    ensures far == if bh < 16 then reach else Max(reach, Cell(0, cols, r0 + bh - bh % 16 - 1, c0 + RoundUp(bw, 16)))
  {
    far := reach;
    var si, so := cols * 1, rows * 1;
    ghost var inp, before := input[..], output[..];
    var full := bh - bh % 16;
    if full > 0 {
      BlockInside(1, rows, cols, input.Length, output.Length, c0, r0, bw, full);
      far := X8.Kernel(input, junk, Slot(0, si, 1, r0, c0), output, Slot(0, so, 1, c0, r0), si, so, bw, full, reach);
      ByteBlockEnd(cols, r0, c0, full, RoundUp(bw, 16));
      ByteElems(inp, Slot(0, si, 1, r0, c0), si, output[..], Slot(0, so, 1, c0, r0), so, 0, bw, 0, full);
      RegionOfBlock(1, inp, output[..], rows, cols, c0, r0, bw, full);
      RegionWiden(1, before, before, output[..], rows, c0, r0, bw, bh, c0, r0, bw, full);
    }
    ghost var mem := output[..];
    ScalarRegion(1, input, output, rows, cols, c0, c0 + bw, r0 + full, r0 + bh);
    RegionKeep(1, inp, mem, output[..], rows, cols, c0, r0 + full, bw, bh - full, c0, c0 + bw, r0, r0 + full);
    RegionWiden(1, before, mem, output[..], rows, c0, r0, bw, bh, c0, r0 + full, bw, bh - full);
  }

  method WordBlock(input: array<Byte>, junk: int -> Byte, output: array<Byte>, rows: int, cols: int,
                   r0: int, c0: int, bh: int, bw: int, ghost reach: int)
    returns (ghost far: int)
    requires input != output && Fits(4, rows, cols, input.Length, output.Length)
    requires 0 <= c0 && 1 <= bw && c0 + bw <= cols && 0 <= r0 && 1 <= bh && r0 + bh <= rows
    modifies output
    ensures Region(4, input[..], output[..], rows, cols, c0, c0 + bw, r0, r0 + bh)
    ensures OnlyRegion(4, old(output[..]), output[..], rows, c0, r0, bw, bh)
    ensures far <= Max(reach, TotalBytes(rows, cols, 4))
  {
    far := reach;
    var si, so := cols * 4, rows * 4;
    ghost var inp, before := input[..], output[..];
    var full := bw - bw % 4;
    if full > 0 {
      BlockInside(4, rows, cols, input.Length, output.Length, c0, r0, full, bh);
      far := X32.Kernel(input, junk, Slot(0, si, 4, r0, c0), output, Slot(0, so, 4, c0, r0), si, so, full, bh, reach);
      WholeWords(bw);
      WordBlockEnd(rows, cols, r0, c0, full, bh);
      RegionOfBlock(4, inp, output[..], rows, cols, c0, r0, full, bh);
      RegionWiden(4, before, before, output[..], rows, c0, r0, bw, bh, c0, r0, full, bh);
    }
    ghost var mem := output[..];
    ScalarRegion(4, input, output, rows, cols, c0 + full, c0 + bw, r0, r0 + bh);
    RegionKeep(4, inp, mem, output[..], rows, cols, c0 + full, r0, bw - full, bh, c0, c0 + full, r0, r0 + bh);
    RegionWiden(4, before, mem, output[..], rows, c0, r0, bw, bh, c0 + full, r0, bw - full, bh);
  }

  lemma ByteBlockEnd(cols: int, r0: int, c0: int, full: int, x: int)
    ensures Cell(Slot(0, cols * 1, 1, r0, c0), cols * 1, full - 1, x) == Cell(0, cols, r0 + full - 1, c0 + x)
  {
    MulSum(r0, full - 1, cols);
  }

  lemma WholeWords(bw: int)
    ensures (bw - bw % 4) % 4 == 0
  {
    var q := bw / 4;
    assert bw - bw % 4 == 4 * q;
  }

  lemma WordBlockEnd(rows: int, cols: int, r0: int, c0: int, width: int, height: int)
    requires 0 <= cols && r0 + height <= rows && c0 + width <= cols
    ensures X32.BlockEnd(Slot(0, cols * 4, 4, r0, c0), cols * 4, width, height) <= TotalBytes(rows, cols, 4)
  {
    var si := cols * 4;
    MulSum(r0, height - 1, si);
    MulMono(r0 + height - 1, rows - 1, si);
    MulSum(rows - 1, 1, si);
    assert rows * si == rows * cols * 4;
  }

  /** In plain offsets: byte `b` of element (c, r) of the output is that of element (r, c) of the input. */
  lemma RegionByte(es: nat, x: seq<Byte>, out: seq<Byte>, rows: int, cols: int, c: int, r: int, b: int)
    requires Region(es, x, out, rows, cols, 0, cols, 0, rows) && 0 <= c < cols && 0 <= r < rows && 0 <= b < es
    requires rows * cols * es <= |x| && rows * cols * es <= |out|
    ensures 0 <= (c * rows + r) * es + b < |out| && 0 <= (r * cols + c) * es + b < |x|
    ensures out[(c * rows + r) * es + b] == x[(r * cols + c) * es + b]
  {
    var s, u := Slot(0, rows * es, es, c, r), Slot(0, cols * es, es, r, c);
    assert Elem(out, s, es)[b] == Elem(x, u, es)[b];
    FlatOffset(es, rows, c, r);
    FlatOffset(es, cols, r, c);
    OffsetInside(es, rows, cols, c, r, b);
    OffsetInside(es, cols, rows, r, c, b);
    assert cols * rows * es == rows * cols * es;
  }

  lemma FlatOffset(es: int, rows: int, c: int, r: int)
    ensures Slot(0, rows * es, es, c, r) == (c * rows + r) * es
  {
    MulSum(c * rows, r, es);
    assert c * (rows * es) == c * rows * es;
  }

  lemma OffsetInside(es: int, rows: int, cols: int, c: int, r: int, b: int)
    requires 0 <= c < cols && 0 <= r < rows && 0 <= b < es
    ensures 0 <= (c * rows + r) * es + b < cols * rows * es
  {
    CellBound(rows, cols, c, r);
    CellBound(es, cols * rows, c * rows + r, b);
  }

  // ----- Whole matrices -----

  /** How far the loads of a matrix may have reached once `n` rows, up to a row of blocks, are done. */
  ghost predicate FarOk(es: nat, far: int, n: int, rows: int, cols: int) {
    (es == 1 ==> far == ByteReach(n, cols)) && (es == 4 ==> far <= TotalBytes(rows, cols, 4))
  }

  /** Likewise within a row of blocks. */
  ghost predicate FarInRow(es: nat, far: int, r0: int, bh: int, c: int, rows: int, cols: int) {
    (es == 1 ==> far == RowReach(r0, bh, c, cols)) && (es == 4 ==> far <= TotalBytes(rows, cols, 4))
  }

  /** One row of cache-sized blocks. */
  method MacroRow(es: nat, input: array<Byte>, junk: int -> Byte, output: array<Byte>, rows: int, cols: int,
                  r0: int, bh: int, blockSize: int, ghost before: seq<Byte>, ghost reach: int)
    returns (ghost far: int)
    requires (es == 1 || es == 4) && input != output && Fits(es, rows, cols, input.Length, output.Length)
    requires 0 <= r0 && r0 % 16 == 0 && 1 <= bh && r0 + bh <= rows && 1 <= blockSize && blockSize % 16 == 0
    requires Region(es, input[..], output[..], rows, cols, 0, cols, 0, r0) && FarOk(es, reach, r0, rows, cols)
    requires OnlyRegion(es, before, output[..], rows, 0, 0, cols, rows)
    modifies output
    ensures Region(es, input[..], output[..], rows, cols, 0, cols, 0, r0 + bh) && FarOk(es, far, r0 + bh, rows, cols)
    ensures OnlyRegion(es, before, output[..], rows, 0, 0, cols, rows)
  {
    far := reach;
    ghost var inp, blocks := input[..], 0;
    var c0 := 0;
    while c0 < cols
      invariant 0 <= c0 && c0 == blocks * blockSize && input[..] == inp
      invariant FarInRow(es, far, r0, bh, Min(c0, cols), rows, cols)
      invariant Region(es, inp, output[..], rows, cols, 0, cols, 0, r0)
      invariant Region(es, inp, output[..], rows, cols, 0, Min(c0, cols), r0, r0 + bh)
      invariant OnlyRegion(es, before, output[..], rows, 0, 0, cols, rows)
    {
      var bw := Min(blockSize, cols - c0);
      ghost var mem := output[..];
      BlockMultiple(blocks, blockSize);
      far := TransposeBlock(es, input, junk, output, rows, cols, r0, c0, bh, bw, far);
      RowReachStep(r0, bh, c0, bw, cols);
      RegionKeep(es, inp, mem, output[..], rows, cols, c0, r0, bw, bh, 0, cols, 0, r0);
      RegionKeep(es, inp, mem, output[..], rows, cols, c0, r0, bw, bh, 0, c0, r0, r0 + bh);
      RegionWiden(es, before, mem, output[..], rows, 0, 0, cols, rows, c0, r0, bw, bh);
      MulSum(blocks, 1, blockSize);
      c0, blocks := c0 + blockSize, blocks + 1;
    }
    RowReachDone(r0, bh, cols);
  }

  lemma BlockMultiple(blocks: int, blockSize: int)
    requires blockSize % 16 == 0
    ensures blocks * blockSize % 16 == 0
  {
    var q := blockSize / 16;
    assert blocks * blockSize == blocks * q * 16;
    MultipleMod(blocks * q, 16);
  }

  /** Cache-sized blocks, row blocks outermost. */
  method TransposeMacro(es: nat, input: array<Byte>, junk: int -> Byte, output: array<Byte>, rows: int, cols: int)
    returns (ghost far: int)
    requires (es == 1 || es == 4) && input != output && Fits(es, rows, cols, input.Length, output.Length)
    modifies output
    ensures Region(es, input[..], output[..], rows, cols, 0, cols, 0, rows)
    ensures OnlyRegion(es, old(output[..]), output[..], rows, 0, 0, cols, rows)
    ensures FarOk(es, far, rows, rows, cols)
  {
    far := 0;
    TotalNonNegative(rows, cols);
    var blockSize := if es == 1 then MACRO_BLOCK_X8 else MACRO_BLOCK_X32;
    ghost var inp, before := input[..], output[..];
    var r0 := 0;
    while r0 < rows
      invariant 0 <= r0 && r0 % 16 == 0 && input[..] == inp
      invariant FarOk(es, far, Min(r0, rows), rows, cols)
      invariant Region(es, inp, output[..], rows, cols, 0, cols, 0, Min(r0, rows))
      invariant OnlyRegion(es, before, output[..], rows, 0, 0, cols, rows)
    {
      var bh := Min(blockSize, rows - r0);
      far := MacroRow(es, input, junk, output, rows, cols, r0, bh, blockSize, before, far);
      r0 := r0 + blockSize;
    }
  }

  lemma TotalNonNegative(rows: int, cols: int)
    requires 0 <= rows && 0 <= cols
    ensures 0 <= TotalBytes(rows, cols, 4)
  {
    MulMono(0, rows, cols);
  }

  /** The bytes of a matrix. */
  function TotalBytes(rows: int, cols: int, es: int): int {
    rows * cols * es
  }

  /** Transpose a `rows` by `cols` matrix of 1- or 4-byte elements.  Whichever path is taken,
      the output is the transposed matrix, and an empty matrix leaves it alone.  `far` is the end
      of the farthest vector load: 4-byte elements are never read past the matrix. */
  method Transpose(es: nat, input: array<Byte>, junk: int -> Byte, output: array<Byte>, rows: int, cols: int)
    returns (ghost far: int)
    requires (es == 1 || es == 4) && input != output && 0 <= rows && 0 <= cols
    requires rows > 0 && cols > 0 ==> Fits(es, rows, cols, input.Length, output.Length)
    modifies output
    ensures Region(es, input[..], output[..], rows, cols, 0, cols, 0, rows)
    ensures OnlyRegion(es, old(output[..]), output[..], rows, 0, 0, cols, rows)
    ensures es == 1 ==> far == if rows > 1 && cols > 1 then ByteReach(rows, cols) else 0
    ensures es == 4 ==> far <= TotalBytes(rows, cols, 4)
  {
    far := 0;
    TotalNonNegative(rows, cols);
    if rows == 0 || cols == 0 {
      return;
    }
    if rows == 1 && cols == 1 {
      CopySingle(es, input, output);
      return;
    }
    if rows == 1 || cols == 1 {
      CopyVector(es, input, output, rows, cols);
      return;
    }
    far := TransposeMatrix(es, input, junk, output, rows, cols);
  }

  /** Tiled when the matrix exceeds the cache, in one block otherwise. */
  method TransposeMatrix(es: nat, input: array<Byte>, junk: int -> Byte, output: array<Byte>, rows: int, cols: int)
    returns (ghost far: int)
    requires (es == 1 || es == 4) && input != output && Fits(es, rows, cols, input.Length, output.Length)
    modifies output
    ensures Region(es, input[..], output[..], rows, cols, 0, cols, 0, rows)
    ensures OnlyRegion(es, old(output[..]), output[..], rows, 0, 0, cols, rows)
    ensures FarOk(es, far, rows, rows, cols)
  {
    if TotalBytes(rows, cols, es) > MACRO_TILE_THRESHOLD {
      far := TransposeMacro(es, input, junk, output, rows, cols);
    } else {
      TotalNonNegative(rows, cols);
      far := TransposeBlock(es, input, junk, output, rows, cols, 0, 0, rows, cols, 0);
      ReachNonNegative(rows, cols);
    }
  }

  lemma ReachNonNegative(n: int, cols: int)
    requires 1 <= n && 1 <= cols
    ensures n >= 16 ==> 0 <= Cell(0, cols, n - n % 16 - 1, RoundUp(cols, 16))
  {
    if n >= 16 {
      MulMono(0, n - n % 16 - 1, cols);
    }
  }

  /** Copy the only element of a 1 by 1 matrix. */
  method CopySingle(es: nat, input: array<Byte>, output: array<Byte>)
    requires input != output && Fits(es, 1, 1, input.Length, output.Length)
    modifies output
    ensures Region(es, input[..], output[..], 1, 1, 0, 1, 0, 1)
    ensures OnlyRegion(es, old(output[..]), output[..], 1, 0, 0, 1, 1)
  {
    CopyElement(es, input, output, 1, 1, 0, 0);
  }

  /** A row or column vector has the layout of its transpose, so it is copied element by
      element. */
  method CopyVector(es: nat, input: array<Byte>, output: array<Byte>, rows: int, cols: int)
    requires input != output && Fits(es, rows, cols, input.Length, output.Length) && (rows == 1 || cols == 1)
    modifies output
    ensures Region(es, input[..], output[..], rows, cols, 0, cols, 0, rows)
    ensures OnlyRegion(es, old(output[..]), output[..], rows, 0, 0, cols, rows)
  {
    var count := if rows == 1 then cols else rows;
    ghost var inp, before := input[..], output[..];
    var i := 0;
    while i < count
      invariant 0 <= i <= count && input[..] == inp
      invariant Region(es, inp, output[..], rows, cols, 0, if rows == 1 then i else 1, 0, if rows == 1 then 1 else i)
      invariant OnlyRegion(es, before, output[..], rows, 0, 0, cols, rows)
    {
      ghost var c, r := if rows == 1 then i else 0, if rows == 1 then 0 else i;
      ghost var mem := output[..];
      CopyFlat(es, input, output, rows, cols, i, c, r);
      RegionKeep(es, inp, mem, output[..], rows, cols, c, r, 1, 1, 0, if rows == 1 then i else 1, 0, if rows == 1 then 1 else i);
      RegionWiden(es, before, mem, output[..], rows, 0, 0, cols, rows, c, r, 1, 1);
      i := i + 1;
    }
  }

  /** Copy element `i` of a vector. */
  method CopyFlat(es: nat, input: array<Byte>, output: array<Byte>, ghost rows: int, ghost cols: int, i: int, ghost c: int, ghost r: int)
    requires input != output && Fits(es, rows, cols, input.Length, output.Length) && 0 <= c < cols && 0 <= r < rows
    requires (rows == 1 && c == i && r == 0) || (cols == 1 && r == i && c == 0)
    modifies output
    ensures OnlyRegion(es, old(output[..]), output[..], rows, c, r, 1, 1)
    ensures Region(es, input[..], output[..], rows, cols, c, c + 1, r, r + 1)
  {
    FlatSlot(es, rows, cols, i, c, r);
    BlockInside(es, rows, cols, input.Length, output.Length, c, r, 1, 1);
    CopyBytes(es, input, i * es, output, i * es, rows * es, cols * es);
  }

  lemma FlatSlot(es: int, rows: int, cols: int, i: int, c: int, r: int)
    requires (rows == 1 && c == i && r == 0) || (cols == 1 && r == i && c == 0)
    ensures Slot(0, rows * es, es, c, r) == i * es && Slot(0, cols * es, es, r, c) == i * es
  {
  }
}
