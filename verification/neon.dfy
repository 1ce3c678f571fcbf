/**
 The 128-bit vector operations the transpose kernels use, on sequences of 16 bytes, and
 what the kernels' shuffle networks compute with them.
 */
module Neon {
  import opened Cells

  type Vec = v: seq<Byte> | |v| == 16 witness [0, 0, 0, 0, 0, 0, 0, 0, 0, 0, 0, 0, 0, 0, 0, 0]

  type Pair = (Vec, Vec)

  /** Load 16 bytes at `p`; bytes past the end of the buffer can be anything. */
  function Load(mem: seq<Byte>, junk: int -> Byte, p: int): Vec {
    seq(16, i requires 0 <= i < 16 => if 0 <= p + i < |mem| then mem[p + i] else junk(p + i))
  }

  /** Store bytes at `o`. */
  method Store(output: array<Byte>, o: int, v: seq<Byte>)
    requires 0 <= o && o + |v| <= output.Length
    modifies output
    ensures forall k :: 0 <= k < output.Length ==> output[k] == if o <= k < o + |v| then v[k - o] else old(output[k])
  {
    forall k | 0 <= k < |v| {
      output[o + k] := v[k];
    }
  }

  /** One half of the interleaving of two vectors: lanes from `8 * half` on. */
  function ZipHalf(a: Vec, b: Vec, half: int): Vec
    requires 0 <= half <= 1
  {
    seq(16, i requires 0 <= i < 16 => if i % 2 == 0 then a[8 * half + i / 2] else b[8 * half + i / 2])
  }

  /** Interleave two vectors. */
  function Zip(a: Vec, b: Vec): Pair {
    (ZipHalf(a, b, 0), ZipHalf(a, b, 1))
  }

  /** Table lookup: lane `i` is byte `idx[i]` of the four vectors taken together. */
  function Table(v0: Vec, v1: Vec, v2: Vec, v3: Vec, idx: seq<nat>): Vec
    requires |idx| == 16 && forall i :: 0 <= i < 16 ==> idx[i] < 64
  {
    seq(16, i requires 0 <= i < 16 =>
      var lane := idx[i] % 16;
      if idx[i] < 16 then v0[lane] else if idx[i] < 32 then v1[lane] else if idx[i] < 48 then v2[lane] else v3[lane])
  }

  // ----- The 16x16 zip network -----

  /** One round of the byte kernel: eight zips of vectors `m` and `m + 8`; the sixteen halves
      in order are what the next round pairs up. */
  function ZipRound(v: seq<Vec>): seq<Vec>
    requires |v| == 16
  {
    var z0 := Zip(v[0], v[8]);
    var z1 := Zip(v[1], v[9]);
    var z2 := Zip(v[2], v[10]);
    var z3 := Zip(v[3], v[11]);
    var z4 := Zip(v[4], v[12]);
    var z5 := Zip(v[5], v[13]);
    var z6 := Zip(v[6], v[14]);
    var z7 := Zip(v[7], v[15]);
    [z0.0, z0.1, z1.0, z1.1, z2.0, z2.1, z3.0, z3.1, z4.0, z4.1, z5.0, z5.1, z6.0, z6.1, z7.0, z7.1]
  }

  /** The four rounds. */
  function ZipNetwork(v4: seq<Vec>): seq<Vec>
    requires |v4| == 16
  {
    var v3 := ZipRound(v4);
    var v2 := ZipRound(v3);
    var v1 := ZipRound(v2);
    ZipRound(v1)
  }

  lemma ZipRoundPair(v: seq<Vec>, m: int, b: int)
    requires |v| == 16 && 0 <= m < 8 && 0 <= b <= 1
    ensures ZipRound(v)[2 * m + b] == ZipHalf(v[m], v[m + 8], b)
  {
    if m < 4 {
      if m == 0 || m == 1 || m == 2 || m == 3 {
      }
    } else if m == 4 || m == 5 || m == 6 || m == 7 {
    }
  }

  /** Where a round takes each byte from.  With a byte's place written as the eight bits of
      its vector and lane numbers, a round rotates them by one. */
  lemma ZipRoundAt(v: seq<Vec>, m: int, b: int, i: int, s: int)
    requires |v| == 16 && 0 <= m < 8 && 0 <= b <= 1 && 0 <= i < 8 && 0 <= s <= 1
    ensures ZipRound(v)[2 * m + b][2 * i + s] == v[m + 8 * s][8 * b + i]
  {
    ZipRoundPair(v, m, b);
  }

  predicate Bit(b: int) {
    0 <= b <= 1
  }

  lemma Bits(n: int) returns (b3: int, b2: int, b1: int, b0: int)
    requires 0 <= n < 16
    ensures Bit(b3) && Bit(b2) && Bit(b1) && Bit(b0) && n == 8 * b3 + 4 * b2 + 2 * b1 + b0
  {
    b3 := if n >= 8 then 1 else 0;
    var m := n - 8 * b3;
    b2 := if m >= 4 then 1 else 0;
    var k := m - 4 * b2;
    b1 := if k >= 2 then 1 else 0;
    b0 := k - 2 * b1;
  }

  /** Byte `lane` of vector `n`. */
  function At(v: seq<Vec>, n: int, lane: int): Byte {
    if 0 <= n < |v| && 0 <= lane < 16 then v[n][lane] else 0
  }

  /** The number whose bits are those of `m` followed by `b`. */
  function Shift(m: int, b: int): int {
    2 * m + b
  }

  /** `w` is `v` with every byte's place rotated by one bit. */
  ghost predicate Rotated(v: seq<Vec>, w: seq<Vec>) {
    && |v| == 16 && |w| == 16
    && forall m, b, i, s :: 0 <= m < 8 && Bit(b) && 0 <= i < 8 && Bit(s) ==>
                              At(w, Shift(m, b), Shift(i, s)) == At(v, m + 8 * s, 8 * b + i)
  }

  lemma RoundRotates(v: seq<Vec>)
    requires |v| == 16
    ensures Rotated(v, ZipRound(v))
  {
    forall m, b, i, s | 0 <= m < 8 && Bit(b) && 0 <= i < 8 && Bit(s)
      ensures At(ZipRound(v), Shift(m, b), Shift(i, s)) == At(v, m + 8 * s, 8 * b + i)
    {
      ZipRoundAt(v, m, b, i, s);
    }
  }

  lemma RotatedAt(v: seq<Vec>, w: seq<Vec>, m: int, b: int, i: int, s: int)
    requires Rotated(v, w) && 0 <= m < 8 && Bit(b) && 0 <= i < 8 && Bit(s)
    ensures At(w, 2 * m + b, 2 * i + s) == At(v, m + 8 * s, 8 * b + i)
  {
    assert At(w, Shift(m, b), Shift(i, s)) == At(v, m + 8 * s, 8 * b + i);
  }

  /** Four rotations of eight bits swap their halves. */
  lemma FourRotations(v4: seq<Vec>, v3: seq<Vec>, v2: seq<Vec>, v1: seq<Vec>, v0: seq<Vec>, c: int, r: int)
    requires Rotated(v4, v3) && Rotated(v3, v2) && Rotated(v2, v1) && Rotated(v1, v0)
    requires 0 <= c < 16 && 0 <= r < 16
    ensures At(v0, c, r) == At(v4, r, c)
  {
    var c3, c2, c1, c0 := Bits(c);
    var r3, r2, r1, r0 := Bits(r);
    TwoRotations(v2, v1, v0, c3, c2, c1, c0, r3, r2, r1, r0);
    TwoRotations(v4, v3, v2, r1, r0, c3, c2, c1, c0, r3, r2);
  }

  /** Two rounds rotate by two bits: the low two bits of each number become the high two of the other. */
  lemma TwoRotations(v2: seq<Vec>, v1: seq<Vec>, v0: seq<Vec>, c3: int, c2: int, c1: int, c0: int, r3: int, r2: int, r1: int, r0: int)
    requires Rotated(v2, v1) && Rotated(v1, v0)
    requires Bit(c3) && Bit(c2) && Bit(c1) && Bit(c0) && Bit(r3) && Bit(r2) && Bit(r1) && Bit(r0)
    ensures At(v0, 8 * c3 + 4 * c2 + 2 * c1 + c0, 8 * r3 + 4 * r2 + 2 * r1 + r0)
            == At(v2, 8 * r1 + 4 * r0 + 2 * c3 + c2, 8 * c1 + 4 * c0 + 2 * r3 + r2)
  {
    RotatedAt(v1, v0, 4 * c3 + 2 * c2 + c1, c0, 4 * r3 + 2 * r2 + r1, r0);
    RotatedAt(v2, v1, 4 * r0 + 2 * c3 + c2, c1, 4 * c0 + 2 * r3 + r2, r1);
  }

  lemma NetworkTransposes(v: seq<Vec>, c: int, r: int)
    requires |v| == 16 && 0 <= c < 16 && 0 <= r < 16
    ensures |ZipNetwork(v)| == 16 && ZipNetwork(v)[c][r] == v[r][c]
  {
    var v3 := ZipRound(v);
    var v2 := ZipRound(v3);
    var v1 := ZipRound(v2);
    RoundRotates(v);
    RoundRotates(v3);
    RoundRotates(v2);
    RoundRotates(v1);
    FourRotations(v, v3, v2, v1, ZipRound(v1), c, r);
  }
}
