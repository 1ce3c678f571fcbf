/**
 Channel-group interleaving: `unit` channels at a time, all rows of a group together.
 */
module FormatGroups {
  import opened Common
  import opened Cells
  import opened FormatCodec

  /** Address of byte `k` of row `i` in group `g`. */
  function Place(row: int, unit: int, g: int, i: int, k: int): int {
    Cell(0, unit, Cell(0, row, g, i), k)
  }

  /** The byte that belongs there: channel `g * unit + k` of row `i`, or padding. */
  function Channel(s: seq<Byte>, col: int, unit: int, g: int, i: int, k: int): Byte {
    if g * unit + k < col then Peek(s, Cell(0, col, i, g * unit + k)) else 0
  }

  ghost predicate Formatted(s: seq<Byte>, out: seq<Byte>, row: int, col: int, unit: int) {
    && 0 < row && 0 < col && 0 < unit
    && |s| == row * col && |out| == row * AlignedCol(col, unit)
    && forall g, i, k :: 0 <= g < Cdiv(col, unit) && 0 <= i < row && 0 <= k < unit ==>
                           Peek(out, Place(row, unit, g, i, k)) == Channel(s, col, unit, g, i, k)
  }

  lemma PlaceBound(row: int, unit: int, groups: int, g: int, i: int, k: int)
    requires 0 <= g < groups && 0 <= i < row && 0 <= k < unit
    ensures 0 <= Cell(0, row, g, i) < groups * row
    ensures 0 <= Place(row, unit, g, i, k) < row * (groups * unit)
  {
    CellBound(row, groups, g, i);
    CellBound(unit, groups * row, Cell(0, row, g, i), k);
    assert groups * row * unit == row * (groups * unit);
  }

  /** In plain offsets: byte `k` of group `g` of row `i`, zero past the last channel. */
  lemma FormattedByte(s: seq<Byte>, out: seq<Byte>, row: int, col: int, unit: int, g: int, i: int, k: int)
    requires Formatted(s, out, row, col, unit) && 0 <= g < Cdiv(col, unit) && 0 <= i < row && 0 <= k < unit
    ensures 0 <= g * row * unit + i * unit + k < |out|
    ensures g * unit + k < col ==> 0 <= i * col + g * unit + k < |s| && out[g * row * unit + i * unit + k] == s[i * col + g * unit + k]
    ensures g * unit + k >= col ==> out[g * row * unit + i * unit + k] == 0
  {
    PlaceBound(row, unit, Cdiv(col, unit), g, i, k);
    MulSum(g * row, i, unit);
    assert Place(row, unit, g, i, k) == g * row * unit + i * unit + k;
    assert Peek(out, Place(row, unit, g, i, k)) == Channel(s, col, unit, g, i, k);
    if g * unit + k < col {
      MulMono(0, g, unit);
      CellBound(col, row, i, g * unit + k);
    }
  }

  /** No two bytes share a place. */
  lemma PlaceInjective(row: int, unit: int, g: int, i: int, k: int, g': int, i': int, k': int)
    requires 0 <= i < row && 0 <= i' < row && 0 <= k < unit && 0 <= k' < unit
    requires Place(row, unit, g, i, k) == Place(row, unit, g', i', k')
    ensures g == g' && i == i' && k == k'
  {
    CellInjective(unit, Cell(0, row, g, i), k, Cell(0, row, g', i'), k');
    CellInjective(row, g, i, g', i');
  }

  /** Every address of the output is a place. */
  lemma PlaceSplit(row: int, unit: int, groups: int, p: int) returns (g: int, i: int, k: int)
    requires 0 < row && 0 < unit && 0 <= p < row * (groups * unit)
    ensures 0 <= g < groups && 0 <= i < row && 0 <= k < unit && p == Place(row, unit, g, i, k)
  {
    assert groups * row * unit == row * (groups * unit);
    var q;
    q, k := CellSplit(unit, groups * row, p);
    g, i := CellSplit(row, groups, q);
  }

  // ----- The encoder -----

  /** Rows of the output before position `q` are in place; the others are zero. */
  ghost predicate Grouped(s: seq<Byte>, mem: seq<Byte>, row: int, col: int, unit: int, q: int) {
    && 0 < row && 0 < col && 0 < unit
    && |s| == row * col && row * AlignedCol(col, unit) <= |mem|
    && forall g, i, k :: 0 <= g < Cdiv(col, unit) && 0 <= i < row && 0 <= k < unit ==>
                           Peek(mem, Place(row, unit, g, i, k))
                           == if Cell(0, row, g, i) < q then Channel(s, col, unit, g, i, k) else 0
  }

  /** The chunk of row `i` that goes to group `g` lies inside both buffers: the bounds checks
      of the encoder never fire. */
  lemma ChunkInside(row: int, col: int, unit: int, g: int, i: int)
    requires 0 < col && 0 < unit && 0 <= g < Cdiv(col, unit) && 0 <= i < row
    ensures var remaining := col - g * unit;
            var size := if remaining < unit then remaining else unit;
            && 0 < size <= unit
            && 0 <= i * col + g * unit && i * col + g * unit + size <= row * col
            && 0 <= g * row * unit + i * unit && g * row * unit + i * unit + size <= row * AlignedCol(col, unit)
            && g * row * unit + i * unit == Place(row, unit, g, i, 0)
  {
    var groups := Cdiv(col, unit);
    var remaining := col - g * unit;
    var size := if remaining < unit then remaining else unit;
    AlignedColFacts(col, unit);
    MulMono(g, groups - 1, unit);
    MulMono(0, g, unit);
    MulSum(groups - 1, 1, unit);
    RowRoom(row, col, col, i);
    PlaceBound(row, unit, groups, g, i, size - 1);
    PlaceBound(row, unit, groups, g, i, 0);
    MulSum(g * row, i, unit);
    assert g * row * unit + i * unit == Place(row, unit, g, i, 0);
    assert Place(row, unit, g, i, size - 1) == Place(row, unit, g, i, 0) + (size - 1);
  }

  /** Zero the output, then copy every chunk to its group. */
  method FillGroups(output: array<Byte>, src: seq<Byte>, row: int, col: int, unit: int)
    requires 0 < row && 0 < col && 0 < unit && |src| == row * col && row * AlignedCol(col, unit) <= output.Length
    modifies output
    ensures 0 <= row * AlignedCol(col, unit)
    ensures Formatted(src, output[..row * AlignedCol(col, unit)], row, col, unit)
    ensures forall k :: row * AlignedCol(col, unit) <= k < output.Length ==> output[k] == old(output[k])
  {
    var groups := Cdiv(col, unit);
    var size := row * AlignedCol(col, unit);
    AlignedColFacts(col, unit);
    MulMono(0, row, AlignedCol(col, unit));
    forall k | 0 <= k < size {
      output[k] := 0;
    }
    NothingGrouped(src, output[..], row, col, unit);
    var g := 0;
    while g < groups
      invariant 0 <= g <= groups
      invariant Grouped(src, output[..], row, col, unit, g * row)
      invariant forall k :: size <= k < output.Length ==> output[k] == old(output[k])
    {
      var i := 0;
      while i < row
        invariant 0 <= i <= row
        invariant Grouped(src, output[..], row, col, unit, g * row + i)
        invariant forall k :: size <= k < output.Length ==> output[k] == old(output[k])
      {
        var from := i * col + g * unit;
        var to := g * row * unit + i * unit;
        var remaining := col - g * unit;
        var n := if remaining < unit then remaining else unit;
        ChunkInside(row, col, unit, g, i);
        assert n > 0 && !(from + n > |src| || to + n > size);
        ghost var mem := output[..];
        CopySpan(output, to, src, from, n);
        GroupedStep(src, mem, output[..], row, col, unit, g, i, n);
        i := i + 1;
      }
      MulSum(g, 1, row);
      g := g + 1;
    }
    AllGrouped(src, output[..], row, col, unit);
  }

  lemma NothingGrouped(s: seq<Byte>, mem: seq<Byte>, row: int, col: int, unit: int)
    requires 0 < row && 0 < col && 0 < unit && |s| == row * col && row * AlignedCol(col, unit) <= |mem|
    requires forall k :: 0 <= k < row * AlignedCol(col, unit) ==> mem[k] == 0
    ensures Grouped(s, mem, row, col, unit, 0)
  {
    forall g, i, k | 0 <= g < Cdiv(col, unit) && 0 <= i < row && 0 <= k < unit
      ensures Peek(mem, Place(row, unit, g, i, k)) == if Cell(0, row, g, i) < 0 then Channel(s, col, unit, g, i, k) else 0
    {
      PlaceBound(row, unit, Cdiv(col, unit), g, i, k);
    }
  }

  lemma GroupedStep(s: seq<Byte>, mem: seq<Byte>, out: seq<Byte>, row: int, col: int, unit: int, g: int, i: int, n: int)
    requires Grouped(s, mem, row, col, unit, g * row + i) && |out| == |mem|
    requires 0 <= g < Cdiv(col, unit) && 0 <= i < row
    requires n == if col - g * unit < unit then col - g * unit else unit
    requires var from, to := i * col + g * unit, Place(row, unit, g, i, 0);
             && 0 < n && 0 <= from && from + n <= |s|
             && forall k :: 0 <= k < |mem| ==> out[k] == if to <= k < to + n then s[from + k - to] else mem[k]
    ensures Grouped(s, out, row, col, unit, g * row + i + 1)
  {
    var groups := Cdiv(col, unit);
    forall g', i', k | 0 <= g' < groups && 0 <= i' < row && 0 <= k < unit
      ensures Peek(out, Place(row, unit, g', i', k))
              == if Cell(0, row, g', i') < g * row + i + 1 then Channel(s, col, unit, g', i', k) else 0
    {
      PlaceBound(row, unit, groups, g', i', k);
      assert Peek(mem, Place(row, unit, g', i', k))
          == if Cell(0, row, g', i') < g * row + i then Channel(s, col, unit, g', i', k) else 0;
      GroupedByte(s, mem, out, row, col, unit, g, i, n, g', i', k);
    }
  }

  lemma GroupedByte(s: seq<Byte>, mem: seq<Byte>, out: seq<Byte>, row: int, col: int, unit: int, g: int, i: int, n: int,
                    g': int, i': int, k: int)
    requires 0 < col && 0 < unit && |s| == row * col && |out| == |mem|
    requires 0 <= i < row && n == if col - g * unit < unit then col - g * unit else unit
    requires var from, to := i * col + g * unit, Place(row, unit, g, i, 0);
             && 0 < n && 0 <= from && from + n <= |s|
             && forall j :: 0 <= j < |mem| ==> out[j] == if to <= j < to + n then s[from + j - to] else mem[j]
    requires 0 <= i' < row && 0 <= k < unit && 0 <= Place(row, unit, g', i', k) < |mem|
    requires Peek(mem, Place(row, unit, g', i', k)) == if Cell(0, row, g', i') < g * row + i then Channel(s, col, unit, g', i', k) else 0
    ensures Peek(out, Place(row, unit, g', i', k)) == if Cell(0, row, g', i') < g * row + i + 1 then Channel(s, col, unit, g', i', k) else 0
  {
    var p, to := Place(row, unit, g', i', k), Place(row, unit, g, i, 0);
    if Cell(0, row, g', i') == Cell(0, row, g, i) {
      CellInjective(row, g', i', g, i);
      assert p == to + k;
      assert i * col + g * unit + k == Cell(0, col, i, g * unit + k);
    } else {
      if to <= p < to + n {
        PlaceInjective(row, unit, g', i', k, g, i, p - to);
      }
    }
  }

  lemma AllGrouped(s: seq<Byte>, mem: seq<Byte>, row: int, col: int, unit: int)
    requires 0 < col && 0 < unit && Grouped(s, mem, row, col, unit, Cdiv(col, unit) * row)
    requires 0 <= row * AlignedCol(col, unit)
    ensures Formatted(s, mem[..row * AlignedCol(col, unit)], row, col, unit)
  {
    var groups := Cdiv(col, unit);
    forall g, i, k | 0 <= g < groups && 0 <= i < row && 0 <= k < unit
      ensures Peek(mem[..row * AlignedCol(col, unit)], Place(row, unit, g, i, k)) == Channel(s, col, unit, g, i, k)
    {
      PlaceBound(row, unit, groups, g, i, k);
      assert Peek(mem, Place(row, unit, g, i, k)) == Channel(s, col, unit, g, i, k);
    }
  }

  ghost predicate AllZero(s: seq<Byte>) {
    forall k :: 0 <= k < |s| ==> s[k] == 0
  }

  /** Interleave the channel groups.  Out of place the result is the formatted input; in
      place the buffer is cleared before it is saved, so the result is all zeros. */
  method EncodeFormatted(input: array<Byte>, inSize: nat, output: array<Byte>, outSize: nat, channel: int, unit: int)
    returns (rc: int, newSize: nat)
    requires inSize <= input.Length && outSize <= output.Length
    requires channel > 0 && unit > 0 && inSize > 0 && inSize % channel == 0 ==>
               && SizesFit(channel, unit, inSize / channel)
               && (inSize / channel) * AlignedCol(channel, unit) <= output.Length
    modifies output
    ensures rc == if channel > 0 && unit > 0 && (inSize == 0 || inSize % channel == 0) then 0 else -1
    ensures rc == -1 ==> newSize == outSize && output[..] == old(output[..])
    ensures rc == 0 && inSize == 0 ==> newSize == 0 && output[..] == old(output[..])
    ensures rc == 0 && inSize > 0 ==>
              && channel > 0 && unit > 0
              && var row := inSize / channel;
              && newSize == row * AlignedCol(channel, unit)
              && (forall k :: newSize <= k < output.Length ==> output[k] == old(output[k]))
              && (input != output ==> Formatted(old(input[..inSize]), output[..newSize], row, channel, unit))
              && (input == output ==> AllZero(output[..newSize]))
  {
    newSize := outSize;
    if channel <= 0 || unit <= 0 {
      return -1, outSize;
    }
    if inSize == 0 {
      return 0, 0;
    }
    if inSize % channel != 0 {
      return -1, outSize;
    }
    var row := inSize / channel;
    var expected := row * AlignedCol(channel, unit);
    AlignedColFacts(channel, unit);
    assert inSize == row * channel;
    assert row >= 1 by {
      if row < 1 {
        MulMono(row, 0, channel);
      }
    }
    MulMono(0, row, AlignedCol(channel, unit));
    MulScale(row, channel, AlignedCol(channel, unit));
    newSize := expected;
    forall k | 0 <= k < newSize {
      output[k] := 0;
    }
    if input == output {
      var temp := input[..inSize];
      assert AllZero(temp);
      FillGroups(output, temp, row, channel, unit);
      FormattedZero(temp, output[..newSize], row, channel, unit);
    } else {
      FillGroups(output, input[..inSize], row, channel, unit);
    }
    rc := 0;
  }

  lemma MulScale(row: int, a: int, b: int)
    requires 0 <= row && a <= b
    ensures row * a <= row * b
  {
  }

  /** A formatted tensor is all zeros exactly when the tensor is. */
  lemma FormattedZero(s: seq<Byte>, e: seq<Byte>, row: int, col: int, unit: int)
    requires Formatted(s, e, row, col, unit)
    ensures AllZero(e) <==> AllZero(s)
  {
    if AllZero(s) {
      forall p | 0 <= p < |e|
        ensures e[p] == 0
      {
        var g, i, k := PlaceSplit(row, unit, Cdiv(col, unit), p);
        assert Peek(e, Place(row, unit, g, i, k)) == Channel(s, col, unit, g, i, k);
      }
    }
    if AllZero(e) {
      forall p | 0 <= p < |s|
        ensures s[p] == 0
      {
        FormattedKeepsByte(s, e, row, col, unit, p);
      }
    }
  }

  /** Every channel is in some group. */
  lemma ChannelSplit(col: int, unit: int, c: int) returns (g: int, k: int)
    requires 0 < unit && 0 <= c < col
    ensures 0 <= g < Cdiv(col, unit) && 0 <= k < unit && c == g * unit + k
  {
    AlignedColFacts(col, unit);
    g, k := CellSplit(unit, Cdiv(col, unit), c);
  }

  /** Every input byte appears in the output. */
  lemma FormattedKeepsByte(s: seq<Byte>, e: seq<Byte>, row: int, col: int, unit: int, p: int)
    requires Formatted(s, e, row, col, unit) && 0 <= p < |s|
    ensures exists q :: 0 <= q < |e| && e[q] == s[p]
  {
    var i, c := CellSplit(col, row, p);
    var groups := Cdiv(col, unit);
    var g, k := ChannelSplit(col, unit, c);
    assert Peek(e, Place(row, unit, g, i, k)) == Channel(s, col, unit, g, i, k);
    PlaceBound(row, unit, groups, g, i, k);
    assert p == Cell(0, col, i, c);
  }

  /** Formatting in place, which yields zeros, is right exactly for an all-zero tensor. */
  lemma InPlaceFormattedRight(s: seq<Byte>, e: seq<Byte>, zeros: seq<Byte>, row: int, col: int, unit: int)
    requires Formatted(s, e, row, col, unit) && AllZero(zeros) && |zeros| == |e|
    ensures zeros == e <==> AllZero(s)
  {
    FormattedZero(s, e, row, col, unit);
    if AllZero(s) {
      assert forall k :: 0 <= k < |e| ==> zeros[k] == e[k];
    }
  }

  /** Formatting one byte that is not zero in place loses it. */
  method InPlaceFormattedLoses(data: array<Byte>)
    requires data.Length == 1 && data[0] != 0
    modifies data
    ensures !Formatted(old(data[..]), data[..], 1, 1, 1)
  {
    ghost var s := data[..];
    assert s[0] != 0;
    assert Cdiv(1, 1) == 1 && AlignedCol(1, 1) == 1;
    var rc, size := EncodeFormatted(data, 1, data, 1, 1, 1);
    assert data[..size] == data[..] && AllZero(data[..]);
    NonZeroNotLost(s, data[..]);
  }

  lemma NonZeroNotLost(s: seq<Byte>, e: seq<Byte>)
    requires !AllZero(s) && AllZero(e)
    ensures !Formatted(s, e, 1, 1, 1)
  {
    if Formatted(s, e, 1, 1, 1) {
      FormattedZero(s, e, 1, 1, 1);
    }
  }

  // ----- The skip-copy shortcut -----

  /** A tensor that the encoder would accept into a buffer of the tensor's own size is its own
      padded form, so handing it to the device unencoded is the same as encoding it. */
  lemma SkipCopyPadded(s: seq<Byte>, col: int, unit: int)
    requires EncodeAccepts(|s|, |s|, col, unit)
    ensures Padded(s, s, |s| / col, col, AlignedCol(col, unit))
    ensures forall e :: Padded(s, e, |s| / col, col, AlignedCol(col, unit)) ==> e == s
  {
    AlignedColFacts(col, unit);
    var row, width := |s| / col, AlignedCol(col, unit);
    assert |s| == row * col;
    NoRoomToPad(row, col, width);
    if row > 0 {
      WholeRows(s, s, row, col);
    }
    forall e | Padded(s, e, row, col, width)
      ensures e == s
    {
      PaddedUnique(s, e, s, row, col, width);
    }
  }

  lemma NoRoomToPad(row: int, col: int, width: int)
    requires 0 <= row && col <= width && row * width <= row * col
    ensures row == 0 || width == col
  {
    if width > col {
      MulMono(col + 1, width, row);
      assert row * (col + 1) == row * col + row;
    }
  }

  /** The formatted bytes, computed. */
  function Format(s: seq<Byte>, row: int, col: int, unit: int): seq<Byte>
    requires 0 < row && 0 < col && 0 < unit && 0 <= row * AlignedCol(col, unit)
  {
    seq(row * AlignedCol(col, unit), p requires 0 <= p < row * AlignedCol(col, unit) =>
      var q, k := p / unit, p % unit;
      Channel(s, col, unit, q / row, q % row, k))
  }

  lemma FormatIsFormatted(s: seq<Byte>, row: int, col: int, unit: int)
    requires 0 < row && 0 < col && 0 < unit && |s| == row * col
    ensures 0 <= row * AlignedCol(col, unit)
    ensures Formatted(s, Format(s, row, col, unit), row, col, unit)
  {
    AlignedColFacts(col, unit);
    MulMono(0, row, AlignedCol(col, unit));
    var e := Format(s, row, col, unit);
    forall g, i, k | 0 <= g < Cdiv(col, unit) && 0 <= i < row && 0 <= k < unit
      ensures Peek(e, Place(row, unit, g, i, k)) == Channel(s, col, unit, g, i, k)
    {
      PlaceBound(row, unit, Cdiv(col, unit), g, i, k);
      PlaceInverse(row, unit, g, i, k);
    }
  }

  lemma PlaceInverse(row: int, unit: int, g: int, i: int, k: int)
    requires 0 <= i < row && 0 <= k < unit
    ensures var p := Place(row, unit, g, i, k);
            p % unit == k && (p / unit) / row == g && (p / unit) % row == i
  {
    CellInverse(unit, Cell(0, row, g, i), k);
    CellInverse(row, g, i);
  }

  lemma CellInverse(stride: int, c: int, r: int)
    requires 0 <= r < stride
    ensures var p := Cell(0, stride, c, r); p / stride == c && p % stride == r
  {
    var p := Cell(0, stride, c, r);
    assert p == (p / stride) * stride + p % stride;
    CellInjective(stride, p / stride, p % stride, c, r);
  }

  lemma FormattedUnique(s: seq<Byte>, e: seq<Byte>, e': seq<Byte>, row: int, col: int, unit: int)
    requires Formatted(s, e, row, col, unit) && Formatted(s, e', row, col, unit)
    ensures e == e'
  {
    forall p | 0 <= p < |e|
      ensures e[p] == e'[p]
    {
      var g, i, k := PlaceSplit(row, unit, Cdiv(col, unit), p);
      assert Peek(e, Place(row, unit, g, i, k)) == Channel(s, col, unit, g, i, k);
      assert Peek(e', Place(row, unit, g, i, k)) == Channel(s, col, unit, g, i, k);
    }
  }

  /** With whole groups and a single group or a single row, formatting changes nothing. */
  lemma FormattedIsIdentity(s: seq<Byte>, e: seq<Byte>, row: int, col: int, unit: int)
    requires Formatted(s, e, row, col, unit) && col % unit == 0 && (Cdiv(col, unit) == 1 || row == 1)
    ensures e == s
  {
    AlignedColFacts(col, unit);
    var groups := Cdiv(col, unit);
    forall p | 0 <= p < |s|
      ensures e[p] == s[p]
    {
      var g, i, k := PlaceSplit(row, unit, groups, p);
      assert Peek(e, Place(row, unit, g, i, k)) == Channel(s, col, unit, g, i, k);
      MulMono(g + 1, groups, unit);
      MulSum(g, 1, unit);
      if groups == 1 {
        assert g == 0 && p == i * unit + k && col == unit;
      } else {
        assert i == 0 && p == g * unit + k;
      }
      assert p == Cell(0, col, i, g * unit + k);
    }
  }

  /** A tensor with a single non-zero byte. */
  function Spike(n: nat, at: int): seq<Byte> {
    seq(n, p requires 0 <= p < n => if p == at then 1 else 0)
  }

  /** With several groups and several rows the second group moves, so some tensor changes. */
  lemma FormattedMovesSpike(row: int, col: int, unit: int)
    requires 0 < unit && 0 < col && col % unit == 0 && Cdiv(col, unit) >= 2 && row >= 2
    ensures 0 <= row * col
    ensures forall e :: Formatted(Spike(row * col, unit), e, row, col, unit) ==> e != Spike(row * col, unit)
  {
    AlignedColFacts(col, unit);
    var groups := Cdiv(col, unit);
    MulMono(0, row, col);
    MulMono(2, groups, unit);
    MulMono(2, row, unit);
    var s := Spike(row * col, unit);
    forall e | Formatted(s, e, row, col, unit)
      ensures e != s
    {
      assert Peek(e, Place(row, unit, 1, 0, 0)) == Channel(s, col, unit, 1, 0, 0);
      PlaceBound(row, unit, groups, 1, 0, 0);
      assert Place(row, unit, 1, 0, 0) == row * unit;
      MulMono(1, row, col);
      assert Channel(s, col, unit, 1, 0, 0) == Peek(s, unit) == 1;
      assert Peek(s, row * unit) == 0;
    }
  }

  /** Formatting leaves every tensor of a shape as it is if and only if the channel count is a
      multiple of the unit and there is one group or one row. */
  lemma FormatIdentityExact(row: int, col: int, unit: int)
    requires 0 < row && 0 < col && 0 < unit
    ensures (forall s, e :: Formatted(s, e, row, col, unit) ==> e == s)
            <==> col % unit == 0 && (Cdiv(col, unit) == 1 || row == 1)
  {
    if col % unit == 0 && (Cdiv(col, unit) == 1 || row == 1) {
      forall s, e | Formatted(s, e, row, col, unit)
        ensures e == s
      {
        FormattedIsIdentity(s, e, row, col, unit);
      }
    } else {
      var s, e := SkipCopyDiffers(row, col, unit);
    }
  }

  /** Outside that case, a tensor that formatting changes. */
  lemma SkipCopyDiffers(row: int, col: int, unit: int) returns (s: seq<Byte>, e: seq<Byte>)
    requires 0 < row && 0 < col && 0 < unit && !(col % unit == 0 && (Cdiv(col, unit) == 1 || row == 1))
    ensures Formatted(s, e, row, col, unit) && e != s
  {
    AlignedColFacts(col, unit);
    MulMono(0, row, col);
    s := Spike(row * col, unit);
    FormatIsFormatted(s, row, col, unit);
    e := Format(s, row, col, unit);
    if col % unit == 0 {
      FormattedMovesSpike(row, col, unit);
    } else {
      FormattedGrows(s, e, row, col, unit);
    }
  }

  lemma FormattedGrows(s: seq<Byte>, e: seq<Byte>, row: int, col: int, unit: int)
    requires 0 < row && Formatted(s, e, row, col, unit) && col % unit != 0
    ensures |e| > |s|
  {
    AlignedColFacts(col, unit);
    MulScale(row, col + 1, AlignedCol(col, unit));
    assert row * (col + 1) == row * col + row;
  }
}
