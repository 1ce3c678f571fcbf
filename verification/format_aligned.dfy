/**
 The ALIGNED layout: transpose to channel-last and pad on the way in, unpad and transpose
 back on the way out.
 */
module FormatAligned {
  import opened Common
  import opened Cells
  import opened XnnTranspose
  import opened FormatCodec
  import opened FormatTranspose

  /** Widths are given in elements and used in bytes; only 32-bit floats are scaled. */
  function Scaled(float32: bool, n: int): int {
    if float32 then n * 4 else n
  }

  /** A tensor of `channel * rest` elements of `es` bytes, padded in rows of `col` bytes to `unit`. */
  datatype Shape = Shape(channel: int, rest: int, es: nat, float32: bool, alignUnit: int)
  {
    function Total(): int { TotalBytes(channel, rest, es) }
    function Col(): int { Scaled(float32, channel) }
    function Unit(): int { Scaled(float32, alignUnit) }
    predicate Positive() { channel > 0 && rest > 0 && es > 0 }
    predicate Sound() { Positive() && alignUnit > 0 && (float32 ==> es == 4) }
    function Rows(): int requires Sound() { Total() / Col() }
    function Width(): int requires Sound() { AlignedCol(Col(), Unit()) }
  }

  /** Whole rows: the bytes of a tensor divide into rows of `Col()` bytes. */
  lemma WholeTensor(s: Shape)
    requires s.Sound()
    ensures s.Total() > 0 && s.Total() % s.Col() == 0 && s.Rows() * s.Col() == s.Total() && s.Rows() >= 1
    ensures s.Col() <= s.Width() && s.Rows() * s.Width() >= s.Total()
  {
    TotalPositive(s.channel, s.rest, s.es);
    var q := if s.float32 then s.rest else s.rest * s.es;
    RowsDivide(s, q);
    MultipleMod(q, s.Col());
    AlignedColFacts(s.Col(), s.Unit());
    RowsAtLeastOne(s.Total(), s.Rows(), s.Col(), s.Width());
  }

  lemma RowsDivide(s: Shape, q: int)
    requires s.Sound() && q == if s.float32 then s.rest else s.rest * s.es
    ensures s.Total() == q * s.Col()
  {
    if s.float32 {
      assert s.channel * s.rest * 4 == s.rest * (s.channel * 4);
    } else {
      assert s.channel * s.rest * s.es == s.rest * s.es * s.channel;
    }
  }

  lemma RowsAtLeastOne(total: int, rows: int, col: int, width: int)
    requires total > 0 && 0 < col <= width && rows == total / col && total % col == 0
    ensures rows >= 1 && rows * col == total && rows * width >= total
  {
    assert total == rows * col;
    if rows < 1 {
      MulMono(rows, 0, col);
    }
    MulMono(col, width, rows);
  }

  /** `e` is the channel-last form of `x`, padded. */
  ghost predicate AlignedEncoded(s: Shape, x: seq<Byte>, e: seq<Byte>)
    requires s.Sound()
  {
    exists t :: && |t| == s.Total()
                && Region(s.es, x, t, s.channel, s.rest, 0, s.rest, 0, s.channel)
                && Padded(t, e, s.Rows(), s.Col(), s.Width())
  }

  /** `y` is the channel-first form of the unpadded `e`. */
  ghost predicate AlignedDecoded(s: Shape, e: seq<Byte>, y: seq<Byte>)
    requires s.Sound()
  {
    exists t :: && Unpadded(e, t, s.Rows(), s.Col(), s.Width())
                && Region(s.es, t, y, s.rest, s.channel, 0, s.channel, 0, s.rest)
  }

  /** The width of the padded rows in plain terms: the least multiple of the alignment unit that
      holds the channels, both in elements, four bytes each for 32-bit floats and one otherwise. */
  lemma WidthMeans(s: Shape)
    requires s.Sound()
    ensures s.float32 ==> s.Col() == s.channel * 4 && LeastMultiple(s.Width(), s.channel * 4, s.alignUnit * 4)
    ensures !s.float32 ==> s.Col() == s.channel && LeastMultiple(s.Width(), s.channel, s.alignUnit)
    ensures s.Rows() * s.Col() == s.channel * s.rest * s.es
  {
    AlignedColFacts(s.Col(), s.Unit());
    WholeTensor(s);
  }

  /** Byte `b` of channel `c` of place `p` of an encoded tensor, in plain offsets; bytes past the
      channels of a row are zero. */
  lemma AlignedByte(s: Shape, x: seq<Byte>, e: seq<Byte>, i: int, j: int)
    requires s.Sound() && |x| == s.Total() && AlignedEncoded(s, x, e) && 0 <= i < s.Rows() && 0 <= j < s.Width()
    ensures |e| == s.Rows() * s.Width() && 0 <= i * s.Width() + j < |e|
    ensures j >= s.Col() ==> e[i * s.Width() + j] == 0
    ensures j < s.Col() ==>
              forall p, c, b :: 0 <= p < s.rest && 0 <= c < s.channel && 0 <= b < s.es && i * s.Col() + j == ElementByte(p, s.channel, c, s.es, b) ==>
                0 <= ElementByte(c, s.rest, p, s.es, b) < |x| && e[i * s.Width() + j] == x[ElementByte(c, s.rest, p, s.es, b)]
  {
    var t :| |t| == s.Total() && Region(s.es, x, t, s.channel, s.rest, 0, s.rest, 0, s.channel)
             && Padded(t, e, s.Rows(), s.Col(), s.Width());
    PaddedByte(t, e, s.Rows(), s.Col(), s.Width(), i, j);
    forall p, c, b | 0 <= p < s.rest && 0 <= c < s.channel && 0 <= b < s.es && i * s.Col() + j == ElementByte(p, s.channel, c, s.es, b) && j < s.Col()
      ensures 0 <= ElementByte(c, s.rest, p, s.es, b) < |x| && e[i * s.Width() + j] == x[ElementByte(c, s.rest, p, s.es, b)]
    {
      RegionByte(s.es, x, t, s.channel, s.rest, p, c, b);
    }
  }

  /** Byte `b` of element `n` of row `m` of a matrix of `width` elements of `es` bytes. */
  function ElementByte(m: int, width: int, n: int, es: int, b: int): int {
    (m * width + n) * es + b
  }

  /** Decoding undoes encoding. */
  lemma AlignedRoundTrip(s: Shape, x: seq<Byte>, e: seq<Byte>, y: seq<Byte>)
    requires s.Sound() && |x| == s.Total() && |y| == s.Total()
    requires AlignedEncoded(s, x, e) && AlignedDecoded(s, e, y)
    ensures y == x
  {
    var t :| |t| == s.Total() && Region(s.es, x, t, s.channel, s.rest, 0, s.rest, 0, s.channel)
             && Padded(t, e, s.Rows(), s.Col(), s.Width());
    var u :| Unpadded(e, u, s.Rows(), s.Col(), s.Width())
             && Region(s.es, u, y, s.rest, s.channel, 0, s.channel, 0, s.rest);
    UnpadPadded(t, e, u, s.Rows(), s.Col(), s.Width());
    TransposeTwice(s.es, x, t, y, s.channel, s.rest);
  }

  /** `t` is buffer `before` after a transpose of `x` into it; invalid extents leave it alone. */
  ghost predicate TransposedInto(es: nat, rows: int, cols: int, x: seq<Byte>, before: seq<Byte>, t: seq<Byte>) {
    && |t| == |before|
    && if rows > 0 && cols > 0 && es > 0 then
         && Region(es, x, t, rows, cols, 0, cols, 0, rows)
         && forall k :: TotalBytes(rows, cols, es) <= k < |t| ==> Peek(t, k) == Peek(before, k)
       else t == before
  }

  /** What the encoder leaves: some rows of the transposed buffer, padded. */
  ghost predicate PaddedFrom(s: Shape, x: seq<Byte>, before: seq<Byte>, inSize: nat, out: seq<Byte>)
    requires s.Col() > 0 && s.Unit() > 0
  {
    exists t :: && TransposedInto(s.es, s.channel, s.rest, x, before, t) && inSize <= |t|
                && Padded(t[..inSize], out, inSize / s.Col(), s.Col(), AlignedCol(s.Col(), s.Unit()))
  }

  /** Transpose `original` into the encode buffer, then pad there.  What the transpose or the
      padding cannot handle leaves the buffer to the next step as it is. */
  method EncodeAligned(s: Shape, original: array<Byte>, inSize: nat, encoded: array<Byte>, encSize: nat, accel: bool, junk: int -> Byte)
    returns (rc: int, newSize: nat)
    requires original != encoded && inSize <= original.Length && inSize <= encoded.Length && encSize <= encoded.Length
    requires s.Positive() ==> s.Total() <= original.Length && s.Total() <= encoded.Length
    requires s.Col() > 0 && s.Unit() > 0 ==> SizesFit(s.Col(), s.Unit(), inSize / s.Col())
    modifies encoded
    ensures rc == if EncodeAccepts(inSize, encSize, s.Col(), s.Unit()) then 0 else -1
    ensures rc == -1 ==> newSize == encSize
    ensures rc == 0 ==> s.Col() > 0 && s.Unit() > 0 && newSize <= encoded.Length
                        && PaddedFrom(s, original[..], old(encoded[..]), inSize, encoded[..newSize])
    ensures rc == -1 && !s.Positive() ==> encoded[..] == old(encoded[..])
    ensures s.Sound() && inSize == s.Total() ==> rc == if s.Rows() * s.Width() <= encSize then 0 else -1
    ensures s.Sound() && inSize == s.Total() && rc == 0 ==>
              newSize == s.Rows() * s.Width() && AlignedEncoded(s, original[..inSize], encoded[..newSize])
  {
    ghost var x, before := original[..], encoded[..];
    BidirectionalTranspose(original, encoded, s.channel, s.rest, s.es, accel, junk);
    ghost var t := encoded[..];
    assert t[..inSize] == encoded[..inSize];
    IntoBuffer(s.es, s.channel, s.rest, x, before, t);
    if s.Sound() && inSize == s.Total() {
      WholeTensor(s);
      RegionPrefix(s.es, x, original[..inSize], encoded[..], encoded[..inSize], s.channel, s.rest);
    }
    rc, newSize := Encode(encoded, inSize, encoded, encSize, s.Col(), s.Unit());
  }

  lemma IntoBuffer(es: nat, rows: int, cols: int, x: seq<Byte>, before: seq<Byte>, t: seq<Byte>)
    requires |t| == |before|
    requires rows > 0 && cols > 0 && es > 0 ==>
               Region(es, x, t, rows, cols, 0, cols, 0, rows) && forall k :: 0 <= k && TotalBytes(rows, cols, es) <= k < |t| ==> t[k] == before[k]
    requires !(rows > 0 && cols > 0 && es > 0) ==> t == before
    ensures TransposedInto(es, rows, cols, x, before, t)
  {
    if rows > 0 && cols > 0 && es > 0 {
      TotalPositive(rows, cols, es);
    }
  }

  /** Unpad into the decode buffer, then transpose back into the encoded one. */
  method DecodeAligned(s: Shape, encoded: array<Byte>, encSize: nat, decoded: array<Byte>, decSize: nat, accel: bool, junk: int -> Byte)
    returns (rc: int, newSize: nat)
    requires encoded != decoded && encSize <= encoded.Length && decSize <= decoded.Length
    requires s.Positive() ==> 0 <= s.Total() <= encoded.Length && s.Total() <= decoded.Length
    requires s.Col() > 0 && s.Unit() > 0 ==> DecodeFits(encSize, s.Col(), s.Unit(), false)
    modifies encoded, decoded
    ensures rc == if DecodeAccepts(encSize, decSize, s.Col(), s.Unit()) then 0 else -1
    ensures TransposedInto(s.es, s.rest, s.channel, decoded[..], old(encoded[..]), encoded[..])
    ensures rc == 0 && encSize > 0 ==>
              && s.Col() > 0 && s.Unit() > 0 && AlignedCol(s.Col(), s.Unit()) > 0 && newSize <= decoded.Length
              && Unpadded(old(encoded[..encSize]), decoded[..newSize], encSize / AlignedCol(s.Col(), s.Unit()), s.Col(), AlignedCol(s.Col(), s.Unit()))
    ensures s.Sound() && rc == 0 && encSize == s.Rows() * s.Width() ==> AlignedDecoded(s, old(encoded[..encSize]), encoded[..s.Total()])
  {
    ghost var e := encoded[..encSize];
    rc, newSize := UnpadTensor(s, encoded, encSize, decoded, decSize);
    ghost var all, before := decoded[..], encoded[..];
    assert TotalBytes(s.rest, s.channel, s.es) == s.Total();
    BidirectionalTranspose(decoded, encoded, s.rest, s.channel, s.es, accel, junk);
    IntoBuffer(s.es, s.rest, s.channel, all, before, encoded[..]);
    if s.Sound() && rc == 0 && encSize == s.Rows() * s.Width() {
      TransposedBack(s, e, all, encoded[..]);
    }
  }

  method UnpadTensor(s: Shape, encoded: array<Byte>, encSize: nat, decoded: array<Byte>, decSize: nat) returns (rc: int, newSize: nat)
    requires encoded != decoded && (s.Positive() ==> 0 <= s.Total() <= decoded.Length)
    requires encSize <= encoded.Length && decSize <= decoded.Length
    requires s.Col() > 0 && s.Unit() > 0 ==> DecodeFits(encSize, s.Col(), s.Unit(), false)
    modifies decoded
    ensures rc == if DecodeAccepts(encSize, decSize, s.Col(), s.Unit()) then 0 else -1
    ensures rc == 0 && encSize > 0 ==>
              && s.Col() > 0 && s.Unit() > 0 && AlignedCol(s.Col(), s.Unit()) > 0 && newSize <= decoded.Length
              && Unpadded(encoded[..encSize], decoded[..newSize], encSize / AlignedCol(s.Col(), s.Unit()), s.Col(), AlignedCol(s.Col(), s.Unit()))
    ensures s.Sound() && rc == 0 && encSize == s.Rows() * s.Width() ==>
              Unpadded(encoded[..encSize], decoded[..s.Total()], s.Rows(), s.Col(), s.Width())
  {
    rc, newSize := Decode(encoded, encSize, decoded, decSize, s.Col(), s.Unit());
    if s.Sound() && rc == 0 && encSize == s.Rows() * s.Width() {
      WholeTensor(s);
      QuotientExact(s.Rows(), s.Width());
      assert newSize == s.Total();
    }
  }

  lemma TransposedBack(s: Shape, e: seq<Byte>, all: seq<Byte>, y: seq<Byte>)
    requires s.Sound() && 0 <= s.Total() <= |all| && s.Total() <= |y|
    requires Unpadded(e, all[..s.Total()], s.Rows(), s.Col(), s.Width())
    requires Region(s.es, all, y, s.rest, s.channel, 0, s.channel, 0, s.rest)
    ensures AlignedDecoded(s, e, y[..s.Total()])
  {
    assert TotalBytes(s.rest, s.channel, s.es) == s.Total();
    RegionPrefix(s.es, all, all[..s.Total()], y, y[..s.Total()], s.rest, s.channel);
  }

  /** The decoder accepts what the encoder produced. */
  lemma DecoderAccepts(s: Shape)
    requires s.Sound()
    ensures DecodeAccepts(s.Rows() * s.Width(), s.Total(), s.Col(), s.Unit())
  {
    WholeTensor(s);
    QuotientExact(s.Rows(), s.Width());
  }

  lemma QuotientExact(q: int, w: int)
    requires w > 0
    ensures (q * w) / w == q && (q * w) % w == 0
  {
    MultipleMod(q, w);
    var d := (q * w) / w;
    assert q * w == d * w;
    if d < q {
      MulMono(d + 1, q, w);
      MulSum(d, 1, w);
    } else if q < d {
      MulMono(q + 1, d, w);
      MulSum(q, 1, w);
    }
  }

  lemma TensorFits(s: Shape, len: int)
    requires s.Sound() && SizesFit(s.Col(), s.Unit(), s.Rows()) && s.Rows() * s.Width() <= len
    ensures 0 <= s.Total() <= len && DecodeFits(s.Rows() * s.Width(), s.Col(), s.Unit(), false)
    ensures EncodeAccepts(s.Total(), len, s.Col(), s.Unit())
  {
    WholeTensor(s);
    QuotientExact(s.Rows(), s.Width());
  }

  /** A tensor sent in ALIGNED form and read back unchanged is the tensor. */
  method SendAndReceive(s: Shape, original: array<Byte>, device: array<Byte>, decoded: array<Byte>, accelIn: bool, accelOut: bool, junk: int -> Byte)
    requires s.Sound() && original != device && device != decoded && original != decoded
    requires SizesFit(s.Col(), s.Unit(), s.Rows())
    requires s.Total() <= original.Length && s.Total() <= decoded.Length && s.Rows() * s.Width() <= device.Length
    modifies device, decoded
    ensures 0 <= s.Total() <= device.Length && device[..s.Total()] == original[..s.Total()]
  {
    TensorFits(s, device.Length);
    var total := s.Total();
    ghost var x := original[..total];
    var rc, size := EncodeAligned(s, original, total, device, device.Length, accelIn, junk);
    ghost var e := device[..size];
    assert AlignedEncoded(s, x, e);
    DecoderAccepts(s);
    var decodedSize;
    rc, decodedSize := DecodeAligned(s, device, size, decoded, total, accelOut, junk);
    AlignedRoundTrip(s, x, e, device[..total]);
  }

  /** The same without transposition: pad, then unpad into the output tensor. */
  method SendAndReceivePlain(s: Shape, original: array<Byte>, device: array<Byte>, decoded: array<Byte>)
    requires s.Sound() && original != device && device != decoded && original != decoded
    requires SizesFit(s.Col(), s.Unit(), s.Rows())
    requires s.Total() <= original.Length && s.Total() <= decoded.Length && s.Rows() * s.Width() <= device.Length
    modifies device, decoded
    ensures decoded[..s.Total()] == original[..s.Total()]
  {
    WholeTensor(s);
    var rc, size := Encode(original, s.Total(), device, device.Length, s.Col(), s.Unit());
    ghost var e := device[..size];
    TensorFits(s, device.Length);
    QuotientExact(s.Rows(), s.Width());
    DecoderAccepts(s);
    rc, size := Decode(device, size, decoded, s.Total(), s.Col(), s.Unit());
    UnpadPadded(original[..s.Total()], e, decoded[..size], s.Rows(), s.Col(), s.Width());
  }
}
