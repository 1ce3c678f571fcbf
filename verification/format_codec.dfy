/**
 Row padding and channel-group interleaving of tensor bytes for the NPU.

 A buffer is an array with a claimed size; two buffers are the same array or do not
 overlap.  Sizes are 32-bit in the program: `SizesFit` says that none of them wraps.
 */
module FormatCodec {
  import opened Common
  import opened Cells

  const INT_LIMIT: int := 0x8000_0000
  const UINT_LIMIT: int := 0x1_0000_0000

  /** Division rounding up; zero for a zero divisor. */
  function Cdiv(a: int, b: int): int
    requires a > 0 && b >= 0
  {
    if b == 0 then 0 else (a + (b - 1)) / b
  }

  /** Row width after padding to a multiple of the unit. */
  function AlignedCol(col: int, unit: int): int
    requires col > 0 && unit > 0
  {
    Cdiv(col, unit) * unit
  }

  /** The aligned width is the least multiple of the unit that holds a row. */
  lemma AlignedColFacts(col: int, unit: int)
    requires col > 0 && unit > 0
    ensures Cdiv(col, unit) >= 1
    ensures col <= AlignedCol(col, unit) < col + unit && LeastMultiple(AlignedCol(col, unit), col, unit)
    ensures AlignedCol(col, unit) == col <==> col % unit == 0
  {
    var a := col + (unit - 1);
    var q := a / unit;
    assert a == q * unit + a % unit;
    assert AlignedCol(col, unit) == q * unit;
    MultipleMod(q, unit);
    if col % unit == 0 {
      var m := col / unit;
      assert col == m * unit;
      if q < m {
        MulMono(q + 1, m, unit);
        MulSum(q, 1, unit);
      } else if q > m {
        MulMono(m + 1, q, unit);
        MulSum(m, 1, unit);
      }
    }
    if q < 1 {
      MulMono(q, 0, unit);
    }
  }

  predicate SizesFit(col: int, unit: int, row: int)
    requires col > 0 && unit > 0
  {
    col + unit <= INT_LIMIT && row < INT_LIMIT && row * AlignedCol(col, unit) < UINT_LIMIT
  }

  /** The same for decoding; in place, offsets are computed with signed 32-bit numbers. */
  predicate DecodeFits(inSize: int, col: int, unit: int, inPlace: bool)
    requires col > 0 && unit > 0
  {
    && col + unit <= INT_LIMIT && inSize < UINT_LIMIT
    && AlignedCol(col, unit) > 0 && inSize / AlignedCol(col, unit) < INT_LIMIT
    && (inPlace ==> inSize - AlignedCol(col, unit) < INT_LIMIT)
  }

  // ----- Layouts -----

  /** `out` is `s` with every row of `col` bytes padded with zeros to `width`. */
  ghost predicate Padded(s: seq<Byte>, out: seq<Byte>, row: int, col: int, width: int) {
    && 0 <= row && 1 <= col <= width
    && |s| == row * col && |out| == row * width
    && forall i, j :: 0 <= i < row && 0 <= j < width ==>
                        Peek(out, Cell(0, width, i, j)) == if j < col then Peek(s, Cell(0, col, i, j)) else 0
  }

  /** `out` is the first `col` bytes of every row of `width` bytes of `s`. */
  ghost predicate Unpadded(s: seq<Byte>, out: seq<Byte>, row: int, col: int, width: int) {
    && 0 <= row && 1 <= col <= width
    && |s| == row * width && |out| == row * col
    && forall i, j :: 0 <= i < row && 0 <= j < col ==> Peek(out, Cell(0, col, i, j)) == Peek(s, Cell(0, width, i, j))
  }

  /** In plain offsets: byte `j` of row `i`. */
  lemma PaddedByte(s: seq<Byte>, out: seq<Byte>, row: int, col: int, width: int, i: int, j: int)
    requires Padded(s, out, row, col, width) && 0 <= i < row && 0 <= j < width
    ensures 0 <= i * width + j < |out|
    ensures j < col ==> 0 <= i * col + j < |s| && out[i * width + j] == s[i * col + j]
    ensures j >= col ==> out[i * width + j] == 0
  {
    CellBound(width, row, i, j);
    assert Peek(out, Cell(0, width, i, j)) == if j < col then Peek(s, Cell(0, col, i, j)) else 0;
    if j < col {
      CellBound(col, row, i, j);
    }
  }

  lemma UnpaddedByte(s: seq<Byte>, out: seq<Byte>, row: int, col: int, width: int, i: int, j: int)
    requires Unpadded(s, out, row, col, width) && 0 <= i < row && 0 <= j < col
    ensures 0 <= i * col + j < |out| && 0 <= i * width + j < |s| && out[i * col + j] == s[i * width + j]
  {
    CellBound(width, row, i, j);
    CellBound(col, row, i, j);
    assert Peek(out, Cell(0, col, i, j)) == Peek(s, Cell(0, width, i, j));
  }

  /** Unpadding what was padded gives the bytes back. */
  lemma UnpadPadded(s: seq<Byte>, e: seq<Byte>, d: seq<Byte>, row: int, col: int, width: int)
    requires Padded(s, e, row, col, width) && Unpadded(e, d, row, col, width)
    ensures d == s
  {
    forall k | 0 <= k < |s|
      ensures d[k] == s[k]
    {
      var i, j := CellSplit(col, row, k);
      assert k == Cell(0, col, i, j);
      assert Peek(d, Cell(0, col, i, j)) == Peek(e, Cell(0, width, i, j));
      assert Peek(e, Cell(0, width, i, j)) == Peek(s, Cell(0, col, i, j));
    }
  }

  /** The padded bytes are determined by the input. */
  lemma PaddedUnique(s: seq<Byte>, e: seq<Byte>, e': seq<Byte>, row: int, col: int, width: int)
    requires Padded(s, e, row, col, width) && Padded(s, e', row, col, width)
    ensures e == e'
  {
    forall k | 0 <= k < |e|
      ensures e[k] == e'[k]
    {
      var i, j := CellSplit(width, row, k);
      assert k == Cell(0, width, i, j);
    }
  }

  /** The unpadded bytes are determined by the input, so decoding in place and out of place agree. */
  lemma UnpaddedUnique(s: seq<Byte>, d: seq<Byte>, d': seq<Byte>, row: int, col: int, width: int)
    requires Unpadded(s, d, row, col, width) && Unpadded(s, d', row, col, width)
    ensures d == d'
  {
    forall k | 0 <= k < |d|
      ensures d[k] == d'[k]
    {
      var i, j := CellSplit(col, row, k);
      assert k == Cell(0, col, i, j);
    }
  }

  // ----- Encoding -----

  /** Zero the first `row * width` bytes, then copy the rows of `src` apart. */
  method SpreadRows(output: array<Byte>, src: seq<Byte>, row: int, col: int, width: int)
    requires 0 <= row && 1 <= col <= width && |src| == row * col && row * width <= output.Length
    modifies output
    ensures Padded(src, output[..row * width], row, col, width)
    ensures output[row * width..] == old(output[row * width..])
  {
    var size := row * width;
    MulMono(0, row, width);
    forall k | 0 <= k < size {
      output[k] := 0;
    }
    var i := 0;
    while i < row
      invariant 0 <= i <= row
      invariant Spread(src, output[..], row, col, width, i)
      invariant forall k :: size <= k < output.Length ==> output[k] == old(output[k])
    {
      RowRoom(row, col, width, i);
      ghost var mem := output[..];
      CopySpan(output, i * width, src, i * col, col);
      SpreadStep(src, mem, output[..], row, col, width, i);
      i := i + 1;
    }
    SpreadDone(src, output[..], row, col, width);
  }

  /** Row `i` fits in the input and in the output. */
  lemma RowRoom(row: int, col: int, width: int, i: int)
    requires 0 <= i < row && 1 <= col <= width
    ensures 0 <= i * width && i * width + width <= row * width && (i + 1) * width == i * width + width
    ensures 0 <= i * col && i * col + col <= row * col
  {
    MulMono(0, i, width);
    MulMono(0, i, col);
    MulSum(i, 1, width);
    MulSum(i, 1, col);
    MulMono(i + 1, row, width);
    MulMono(i + 1, row, col);
  }

  /** Rows before `i` are in place, the rest is still zero. */
  ghost predicate Spread(src: seq<Byte>, mem: seq<Byte>, row: int, col: int, width: int, i: int) {
    && 0 <= i <= row && 1 <= col <= width && |src| == row * col && row * width <= |mem|
    && (forall a, j :: 0 <= a < i && 0 <= j < width ==>
          Peek(mem, Cell(0, width, a, j)) == if j < col then Peek(src, Cell(0, col, a, j)) else 0)
    && (forall k :: 0 <= k && i * width <= k < row * width ==> mem[k] == 0)
  }

  /** Copy `n` bytes of `src` from `from` to `at`. */
  method CopySpan(output: array<Byte>, at: int, src: seq<Byte>, from: int, n: int)
    requires 0 <= n && 0 <= at && at + n <= output.Length && 0 <= from && from + n <= |src|
    modifies output
    ensures forall k :: 0 <= k < output.Length ==> output[k] == if at <= k < at + n then src[from + k - at] else old(output[k])
  {
    forall k | 0 <= k < n {
      output[at + k] := src[from + k];
    }
  }

  lemma SpreadStep(src: seq<Byte>, mem: seq<Byte>, out: seq<Byte>, row: int, col: int, width: int, i: int)
    requires i < row && Spread(src, mem, row, col, width, i) && |out| == |mem|
    requires 0 <= i * col && i * col + col <= |src|
    requires forall k :: 0 <= k < |mem| ==> out[k] == if i * width <= k < i * width + col then src[i * col + k - i * width] else mem[k]
    ensures Spread(src, out, row, col, width, i + 1)
  {
    RowRoom(row, col, width, i);
    forall a, j | 0 <= a < i + 1 && 0 <= j < width
      ensures Peek(out, Cell(0, width, a, j)) == if j < col then Peek(src, Cell(0, col, a, j)) else 0
    {
      CellBound(width, row, a, j);
      if a < i {
        CellBound(width, i, a, j);
        assert Peek(mem, Cell(0, width, a, j)) == if j < col then Peek(src, Cell(0, col, a, j)) else 0;
      }
    }
  }

  lemma SpreadDone(src: seq<Byte>, out: seq<Byte>, row: int, col: int, width: int)
    requires Spread(src, out, row, col, width, row) && 0 <= row * width
    ensures Padded(src, out[..row * width], row, col, width)
  {
    forall a, j | 0 <= a < row && 0 <= j < width
      ensures Peek(out[..row * width], Cell(0, width, a, j)) == if j < col then Peek(src, Cell(0, col, a, j)) else 0
    {
      CellBound(width, row, a, j);
      assert Peek(out, Cell(0, width, a, j)) == if j < col then Peek(src, Cell(0, col, a, j)) else 0;
    }
  }

  /** What `Encode` accepts: positive widths, whole rows, room for the padded rows. */
  predicate EncodeAccepts(inSize: int, outSize: int, col: int, unit: int) {
    col > 0 && unit > 0 && inSize % col == 0 && (inSize / col) * AlignedCol(col, unit) <= outSize
  }

  /** In plain terms: positive widths, whole rows, and room for rows of the least multiple of the
      unit that holds one. */
  lemma EncodeAcceptsMeans(inSize: nat, outSize: nat, col: int, unit: int)
    ensures EncodeAccepts(inSize, outSize, col, unit)
            <==> col > 0 && unit > 0 && inSize % col == 0 && forall w :: LeastMultiple(w, col, unit) ==> inSize / col * w <= outSize
  {
    if col > 0 && unit > 0 {
      AlignedColFacts(col, unit);
      forall w | LeastMultiple(w, col, unit)
        ensures w == AlignedCol(col, unit)
      {
        LeastMultipleUnique(w, AlignedCol(col, unit), col, unit);
      }
    }
  }

  /** Likewise for decoding; nothing is accepted as no rows. */
  lemma DecodeAcceptsMeans(inSize: nat, outSize: nat, col: int, unit: int)
    ensures DecodeAccepts(inSize, outSize, col, unit)
            <==> col > 0 && unit > 0 && (inSize == 0 || forall w :: LeastMultiple(w, col, unit) ==> inSize % w == 0 && inSize / w * col <= outSize)
  {
    if col > 0 && unit > 0 {
      AlignedColFacts(col, unit);
      forall w | LeastMultiple(w, col, unit)
        ensures w == AlignedCol(col, unit)
      {
        LeastMultipleUnique(w, AlignedCol(col, unit), col, unit);
      }
    }
  }

  /** Pad every row to a multiple of `unit`.  The result is the same whether or not input and
      output are the same buffer. */
  method Encode(input: array<Byte>, inSize: nat, output: array<Byte>, outSize: nat, col: int, unit: int)
    returns (rc: int, newSize: nat)
    requires inSize <= input.Length && outSize <= output.Length
    requires col > 0 && unit > 0 ==> SizesFit(col, unit, inSize / col)
    modifies output
    ensures rc == if EncodeAccepts(inSize, outSize, col, unit) then 0 else -1
    ensures rc == -1 ==> newSize == outSize && output[..] == old(output[..])
    ensures rc == 0 ==>
              && col > 0 && unit > 0
              && var row := inSize / col;
              && newSize == row * AlignedCol(col, unit)
              && Padded(old(input[..inSize]), output[..newSize], row, col, AlignedCol(col, unit))
              && output[newSize..] == old(output[newSize..])
  {
    newSize := outSize;
    if col <= 0 || unit <= 0 {
      return -1, outSize;
    }
    if inSize % col != 0 {
      return -1, outSize;
    }
    var row := inSize / col;
    var width := AlignedCol(col, unit);
    var expected := row * width;
    if expected > outSize {
      return -1, outSize;
    }
    AlignedColFacts(col, unit);
    assert inSize == row * col;
    MulMono(0, row, width);
    newSize := expected;
    ghost var s := input[..inSize];
    if input == output {
      if col == width {
        WholeRows(s, output[..newSize], row, col);
        return 0, newSize;
      }
      var temp := input[..inSize];
      SpreadRows(output, temp, row, col, width);
    } else {
      SpreadRows(output, input[..inSize], row, col, width);
    }
    rc := 0;
  }

  lemma WholeRows(s: seq<Byte>, out: seq<Byte>, row: int, col: int)
    requires 0 <= row && 1 <= col && |s| == row * col && out == s
    ensures Padded(s, out, row, col, col) && Unpadded(s, out, row, col, col)
  {
  }

  // ----- Decoding -----

  /** Copy the rows of `src` together; the bounds check in the loop never fires. */
  method GatherRows(output: array<Byte>, src: seq<Byte>, row: int, col: int, width: int, outSize: int)
    requires 0 <= row && 1 <= col <= width && |src| == row * width && row * col == outSize <= output.Length
    modifies output
    ensures Unpadded(src, output[..outSize], row, col, width)
    ensures output[outSize..] == old(output[outSize..])
  {
    MulMono(0, row, col);
    var i := 0;
    while i < row
      invariant 0 <= i <= row
      invariant Gathered(src, output[..], col, width, i)
      invariant forall k :: outSize <= k < output.Length ==> output[k] == old(output[k])
    {
      RowRoom(row, col, width, i);
      assert !(i * col + col > outSize || i * width + col > |src|);
      ghost var mem := output[..];
      CopySpan(output, i * col, src, i * width, col);
      GatherStep(src, mem, output[..], row, col, width, i);
      i := i + 1;
    }
    GatherDone(src, output[..], row, col, width);
  }

  /** The first `i` rows are together. */
  ghost predicate Gathered(src: seq<Byte>, mem: seq<Byte>, col: int, width: int, i: int) {
    forall a, j :: 0 <= a < i && 0 <= j < col ==> Peek(mem, Cell(0, col, a, j)) == Peek(src, Cell(0, width, a, j))
  }

  lemma GatherStep(src: seq<Byte>, mem: seq<Byte>, out: seq<Byte>, row: int, col: int, width: int, i: int)
    requires 0 <= i < row && 1 <= col <= width && |src| == row * width && row * col <= |mem| && |out| == |mem|
    requires 0 <= i * width && i * width + width <= row * width && 0 <= i * col && i * col + col <= row * col
    requires forall k :: 0 <= k < |mem| ==> out[k] == if i * col <= k < i * col + col then src[i * width + k - i * col] else mem[k]
    requires Gathered(src, mem, col, width, i)
    ensures Gathered(src, out, col, width, i + 1)
  {
    forall a, j | 0 <= a < i + 1 && 0 <= j < col
      ensures Peek(out, Cell(0, col, a, j)) == Peek(src, Cell(0, width, a, j))
    {
      CellBound(col, row, a, j);
      CellBound(width, row, a, j);
      if a < i {
        CellBound(col, i, a, j);
        assert Peek(mem, Cell(0, col, a, j)) == Peek(src, Cell(0, width, a, j));
      }
    }
  }

  lemma GatherDone(src: seq<Byte>, out: seq<Byte>, row: int, col: int, width: int)
    requires 0 <= row && 1 <= col <= width && |src| == row * width && 0 <= row * col <= |out|
    requires Gathered(src, out, col, width, row)
    ensures Unpadded(src, out[..row * col], row, col, width)
  {
    forall a, j | 0 <= a < row && 0 <= j < col
      ensures Peek(out[..row * col], Cell(0, col, a, j)) == Peek(src, Cell(0, width, a, j))
    {
      CellBound(col, row, a, j);
      assert Peek(out, Cell(0, col, a, j)) == Peek(src, Cell(0, width, a, j));
    }
  }

  predicate DecodeAccepts(inSize: int, outSize: int, col: int, unit: int) {
    col > 0 && unit > 0
    && (inSize == 0
        || (AlignedCol(col, unit) > 0 && inSize % AlignedCol(col, unit) == 0 && (inSize / AlignedCol(col, unit)) * col <= outSize))
  }

  /** Drop the padding of every row, in place or not. */
  method Decode(input: array<Byte>, inSize: nat, output: array<Byte>, outSize: nat, col: int, unit: int)
    returns (rc: int, newSize: nat)
    requires inSize <= input.Length && outSize <= output.Length
    requires col > 0 && unit > 0 ==> DecodeFits(inSize, col, unit, input == output)
    modifies output
    ensures rc == if DecodeAccepts(inSize, outSize, col, unit) then 0 else -1
    ensures rc == -1 ==> newSize == outSize && output[..] == old(output[..])
    ensures rc == 0 && inSize == 0 ==> newSize == 0 && output[..] == old(output[..])
    ensures rc == 0 && inSize > 0 ==>
              && col > 0 && unit > 0
              && var width := AlignedCol(col, unit);
              && width > 0
              && newSize == (inSize / width) * col
              && Unpadded(old(input[..inSize]), output[..newSize], inSize / width, col, width)
              && output[newSize..] == old(output[newSize..])
  {
    newSize := outSize;
    if col <= 0 || unit <= 0 {
      return -1, outSize;
    }
    var width := AlignedCol(col, unit);
    AlignedColFacts(col, unit);
    if inSize == 0 {
      return 0, 0;
    }
    if inSize % width != 0 {
      return -1, outSize;
    }
    var row := inSize / width;
    var expected := row * col;
    if expected > outSize {
      return -1, outSize;
    }
    assert inSize == row * width;
    MulMono(0, row, col);
    newSize := expected;
    if input == output {
      if col == width {
        WholeRows(input[..inSize], output[..newSize], row, col);
        return 0, newSize;
      }
      var temp := input[..inSize];
      GatherRows(output, temp, row, col, width, newSize);
    } else {
      GatherRows(output, input[..inSize], row, col, width, newSize);
    }
    rc := 0;
  }
}
