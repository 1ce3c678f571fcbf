/**
 One input on its way to the device: the encoder its layout asks for, or no copy at all when
 the tensor already has the declared size.
 */
module FormatInputs {
  import opened Common
  import opened Cells
  import opened FormatCodec
  import opened FormatGroups
  import opened FormatTranspose
  import opened FormatAligned
  import opened XnnTranspose

  /** The layouts of an input, with the widths they are encoded with. */
  datatype Layout =
    | PreFormatter
    | PreIm2col(width: int, channel: int)
    | Interleaved(channel: int)
    | InterleavedTransposed(channel: int, rest: int, es: nat)
    | Aligned(float32: bool, channel: int)
    | Raw

  /** The guard of the shortcut, for the layouts that have it. */
  predicate Skips(count: nat, inSize: int, encSize: int) {
    count == 1 && inSize == encSize
  }

  /** What reaches the device for a FORMATTED input `s`: the tensor itself or its interleaved form. */
  ghost predicate SentInterleaved(count: nat, s: seq<Byte>, encSize: int, out: seq<Byte>, row: int, col: int, unit: int) {
    if Skips(count, |s|, encSize) then out == s else Formatted(s, out, row, col, unit)
  }

  /** The buffer was filled with the interleaved form and then transposed in place. */
  ghost predicate InterleavedThenTransposed(s: seq<Byte>, buffer: seq<Byte>, size: nat, layout: Layout, unit: int)
    requires layout.InterleavedTransposed? && layout.channel > 0
  {
    exists e :: && size <= |e| && Formatted(s, e[..size], |s| / layout.channel, layout.channel, unit)
                && TransposedInto(layout.es, layout.channel, layout.rest, e, e, buffer)
  }

  /** Sizes do not wrap, and the buffer has the room that the code does not check. */
  predicate Room(layout: Layout, inSize: nat, length: nat, unit: int) {
    match layout
    case Interleaved(channel) =>
      channel > 0 && unit > 0 && inSize > 0 && inSize % channel == 0 ==>
        SizesFit(channel, unit, inSize / channel) && (inSize / channel) * AlignedCol(channel, unit) <= length
    case InterleavedTransposed(channel, rest, es) =>
      && (channel > 0 && unit > 0 && inSize > 0 && inSize % channel == 0 ==>
            SizesFit(channel, unit, inSize / channel) && (inSize / channel) * AlignedCol(channel, unit) <= length)
      && (channel > 0 && rest > 0 && es > 0 ==> TotalBytes(channel, rest, es) <= length)
    case Raw => inSize <= length
    case PreFormatter => RowsFit(inSize, inSize, unit)
    case PreIm2col(width, channel) => width > 0 && channel > 0 ==> RowsFit(inSize, width * channel, unit)
    case Aligned(float32, channel) => RowsFit(inSize, Scaled(float32, channel), Scaled(float32, unit))
  }

  predicate RowsFit(inSize: nat, col: int, unit: int) {
    col > 0 && unit > 0 ==> SizesFit(col, unit, inSize / col)
  }

  /** Rows of `col` bytes: when they are whole and there is room, what is sent is the tensor with each
      row padded to the least multiple of `unit`; otherwise the encoder refuses and, unless the
      tensor itself is sent, the buffer goes out as it was. */
  ghost predicate PaddedOrRefused(inSize: nat, encSize: nat, col: int, unit: int, s: seq<Byte>, before: seq<Byte>,
                                  sent: array<Byte>, size: nat, input: array<Byte>)
    requires size <= sent.Length
    reads sent
  {
    if EncodeAccepts(inSize, encSize, col, unit) then
      exists w :: LeastMultiple(w, col, unit) && Padded(s, sent[..size], inSize / col, col, w)
    else
      sent == input || (sent[..] == before && size == encSize)
  }

  /** Send rows of `col` bytes padded to `unit`, or the tensor itself when it has the declared size. */
  method SendPadded(count: nat, input: array<Byte>, inSize: nat, encoded: array<Byte>, encSize: nat, col: int, unit: int)
    returns (sent: array<Byte>, size: nat)
    requires input != encoded && inSize <= input.Length && encSize <= encoded.Length && RowsFit(inSize, col, unit)
    modifies encoded
    ensures size <= sent.Length
    ensures sent == if count == 1 && inSize == encSize then input else encoded
    ensures sent == input ==> size == inSize && encoded[..] == old(encoded[..])
    ensures PaddedOrRefused(inSize, encSize, col, unit, input[..inSize], old(encoded[..]), sent, size, input)
  {
    if col > 0 && unit > 0 {
      AlignedColFacts(col, unit);
    }
    if Skips(count, inSize, encSize) {
      if EncodeAccepts(inSize, encSize, col, unit) {
        SkipCopyPadded(input[..inSize], col, unit);
      }
      return input, inSize;
    }
    sent := encoded;
    var rc;
    rc, size := Encode(input, inSize, encoded, encSize, col, unit);
  }

  /** Send the interleaved form, or the tensor itself when it has the declared size. */
  method SendInterleaved(count: nat, input: array<Byte>, inSize: nat, encoded: array<Byte>, encSize: nat, channel: int, unit: int)
    returns (sent: array<Byte>, size: nat)
    requires input != encoded && inSize <= input.Length && encSize <= encoded.Length
    requires Room(Interleaved(channel), inSize, encoded.Length, unit)
    modifies encoded
    ensures size <= sent.Length
    ensures sent == if count == 1 && inSize == encSize then input else encoded
    ensures sent == input ==> size == inSize && encoded[..] == old(encoded[..])
    ensures channel > 0 && unit > 0 && inSize > 0 && inSize % channel == 0 ==>
              SentInterleaved(count, input[..inSize], encSize, sent[..size], inSize / channel, channel, unit)
  {
    if Skips(count, inSize, encSize) {
      return input, inSize;
    }
    sent := encoded;
    var rc;
    rc, size := EncodeFormatted(input, inSize, encoded, encSize, channel, unit);
  }

  /** Encode one input, or skip the copy.  `sent[..size]` is what the device reads. */
  method EncodeInput(count: nat, input: array<Byte>, inSize: nat, encoded: array<Byte>, encSize: nat, layout: Layout, unit: int,
                     accel: bool, junk: int -> Byte)
    returns (sent: array<Byte>, size: nat)
    requires input != encoded && inSize <= input.Length && encSize <= encoded.Length && Room(layout, inSize, encoded.Length, unit)
    modifies encoded
    ensures size <= sent.Length
    ensures sent == if count == 1 && inSize == encSize && !layout.InterleavedTransposed? then input else encoded
    ensures sent == input ==> size == inSize && encoded[..] == old(encoded[..])
    ensures layout.PreFormatter? ==>
              PaddedOrRefused(inSize, encSize, inSize, unit, input[..inSize], old(encoded[..]), sent, size, input)
    ensures layout.PreIm2col? ==>
              PaddedOrRefused(inSize, encSize, if layout.width > 0 && layout.channel > 0 then layout.width * layout.channel else 0, unit,
                              input[..inSize], old(encoded[..]), sent, size, input)
    ensures layout.Aligned? && !layout.float32 ==>
              PaddedOrRefused(inSize, encSize, layout.channel, unit, input[..inSize], old(encoded[..]), sent, size, input)
    ensures layout.Aligned? && layout.float32 ==>
              PaddedOrRefused(inSize, encSize, layout.channel * 4, unit * 4, input[..inSize], old(encoded[..]), sent, size, input)
    ensures layout.Interleaved? && layout.channel > 0 && unit > 0 && inSize > 0 && inSize % layout.channel == 0 ==>
              SentInterleaved(count, input[..inSize], encSize, sent[..size], inSize / layout.channel, layout.channel, unit)
    ensures layout.InterleavedTransposed? && layout.channel > 0 && unit > 0 && inSize > 0 && inSize % layout.channel == 0 ==>
              InterleavedThenTransposed(input[..inSize], sent[..], size, layout, unit)
    ensures layout.Raw? ==> sent[..size] == input[..inSize]
  {
    match layout {
      case PreFormatter =>
        sent, size := SendPadded(count, input, inSize, encoded, encSize, inSize, unit);
      case PreIm2col(width, channel) =>
        var col := if width <= 0 || channel <= 0 then 0 else width * channel;
        sent, size := SendPadded(count, input, inSize, encoded, encSize, col, unit);
      case Aligned(float32, channel) =>
        var u, col := unit, channel;
        if float32 {
          u, col := u * 4, col * 4;
        }
        sent, size := SendPadded(count, input, inSize, encoded, encSize, col, u);
      case Interleaved(channel) =>
        sent, size := SendInterleaved(count, input, inSize, encoded, encSize, channel, unit);
      case InterleavedTransposed(channel, rest, es) =>
        var rc;
        rc, size := EncodeFormatted(input, inSize, encoded, encSize, channel, unit);
        ghost var e := encoded[..];
        BidirectionalTranspose(encoded, encoded, channel, rest, es, accel, junk);
        IntoBuffer(es, channel, rest, e, e, encoded[..]);
        sent := encoded;
      case Raw =>
        if Skips(count, inSize, encSize) {
          return input, inSize;
        }
        CopySpan(encoded, 0, input[..inSize], 0, inSize);
        sent, size := encoded, inSize;
    }
  }

  /** What reaches the device is the interleaved tensor, for all tensors of a shape, if and only
      if the copy is not skipped or formatting that shape changes nothing. */
  lemma SentInterleavedExact(count: nat, encSize: int, row: int, col: int, unit: int)
    requires 0 < row && 0 < col && 0 < unit
    ensures (forall s, out :: |s| == row * col && SentInterleaved(count, s, encSize, out, row, col, unit) ==> Formatted(s, out, row, col, unit))
            <==> !Skips(count, row * col, encSize) || (col % unit == 0 && (Cdiv(col, unit) == 1 || row == 1))
  {
    MulMono(0, row, col);
    if Skips(count, row * col, encSize) {
      if col % unit == 0 && (Cdiv(col, unit) == 1 || row == 1) {
        forall s, out | |s| == row * col && SentInterleaved(count, s, encSize, out, row, col, unit)
          ensures Formatted(s, out, row, col, unit)
        {
          FormatIsFormatted(s, row, col, unit);
          FormattedIsIdentity(s, Format(s, row, col, unit), row, col, unit);
        }
      } else {
        var s, e := SkipCopyDiffers(row, col, unit);
        assert SentInterleaved(count, s, encSize, s, row, col, unit);
        NotOwnForm(s, e, row, col, unit);
      }
    }
  }

  lemma NotOwnForm(s: seq<Byte>, e: seq<Byte>, row: int, col: int, unit: int)
    requires Formatted(s, e, row, col, unit) && e != s
    ensures !Formatted(s, s, row, col, unit)
  {
    if Formatted(s, s, row, col, unit) {
      FormattedUnique(s, e, s, row, col, unit);
    }
  }

  /** For a single input whose declared size is that of the interleaved form: right if and only
      if the unit does not divide the channels, or there is one group, or one row. */
  lemma SingleInterleavedExact(row: int, col: int, unit: int)
    requires 0 < row && 0 < col && 0 < unit
    ensures (forall s, out :: |s| == row * col && SentInterleaved(1, s, row * AlignedCol(col, unit), out, row, col, unit) ==> Formatted(s, out, row, col, unit))
            <==> col % unit != 0 || Cdiv(col, unit) == 1 || row == 1
  {
    SentInterleavedExact(1, row * AlignedCol(col, unit), row, col, unit);
    DeclaredSizeSkips(row, col, unit);
  }

  lemma DeclaredSizeSkips(row: int, col: int, unit: int)
    requires 0 < row && 0 < col && 0 < unit
    ensures Skips(1, row * col, row * AlignedCol(col, unit)) <==> col % unit == 0
  {
    AlignedColFacts(col, unit);
    WiderRows(row, col, AlignedCol(col, unit));
  }

  lemma WiderRows(row: int, col: int, width: int)
    requires 0 < row && col <= width
    ensures row * col == row * width <==> col == width
  {
    if col < width {
      MulScale(row, col + 1, width);
      assert row * (col + 1) == row * col + row;
    }
  }
}
