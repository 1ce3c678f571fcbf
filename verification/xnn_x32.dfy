/**
 The 4x4 word transpose kernel.
 */
module TransposeX32 {
  import opened Common
  import opened Cells
  import opened Neon

  const POS0: seq<nat> := [0, 1, 2, 3, 16, 17, 18, 19, 32, 33, 34, 35, 48, 49, 50, 51]
  const POS1: seq<nat> := [4, 5, 6, 7, 20, 21, 22, 23, 36, 37, 38, 39, 52, 53, 54, 55]
  const POS2: seq<nat> := [8, 9, 10, 11, 24, 25, 26, 27, 40, 41, 42, 43, 56, 57, 58, 59]
  const POS3: seq<nat> := [12, 13, 14, 15, 28, 29, 30, 31, 44, 45, 46, 47, 60, 61, 62, 63]

  /** The lookup table that collects word `k` of each row. */
  function Positions(k: int): seq<nat> {
    if k == 0 then POS0 else if k == 1 then POS1 else if k == 2 then POS2 else POS3
  }

  lemma PositionAt(k: int, i: int, b: int)
    requires 0 <= k < 4 && 0 <= i < 4 && 0 <= b < 4
    ensures Positions(k)[4 * i + b] == 16 * i + 4 * k + b
  {
    if i == 0 {
      if b == 0 {} else if b == 1 {} else if b == 2 {} else {}
    } else if i == 1 {
      if b == 0 {} else if b == 1 {} else if b == 2 {} else {}
    } else if i == 2 {
      if b == 0 {} else if b == 1 {} else if b == 2 {} else {}
    } else {
      if b == 0 {} else if b == 1 {} else if b == 2 {} else {}
    }
  }

  /** The four table lookups. */
  function Lookups(v: seq<Vec>): (r: seq<Vec>)
    requires |v| == 4
    ensures |r| == 4
  {
    [Table(v[0], v[1], v[2], v[3], POS0), Table(v[0], v[1], v[2], v[3], POS1),
     Table(v[0], v[1], v[2], v[3], POS2), Table(v[0], v[1], v[2], v[3], POS3)]
  }

  lemma TableAt(v: seq<Vec>, idx: seq<nat>, lane: int, i: int, l: int)
    requires |v| == 4 && |idx| == 16 && (forall j :: 0 <= j < 16 ==> idx[j] < 64)
    requires 0 <= lane < 16 && 0 <= i < 4 && 0 <= l < 16 && idx[lane] == 16 * i + l
    ensures Table(v[0], v[1], v[2], v[3], idx)[lane] == v[i][l]
  {
    assert idx[lane] % 16 == l;
  }

  /** Vector `k` of the lookups holds word `k` of row 0, then of row 1, and so on. */
  lemma LookupsAt(v: seq<Vec>, k: int, i: int, b: int)
    requires |v| == 4 && 0 <= k < 4 && 0 <= i < 4 && 0 <= b < 4
    ensures Lookups(v)[k][4 * i + b] == v[i][4 * k + b]
  {
    PositionAt(k, i, b);
    TableAt(v, Positions(k), 4 * i + b, i, 4 * k + b);
    if k == 0 {} else if k == 1 {} else if k == 2 {} else {}
  }

  /** Rows from `k` on of an `n` by `width` block hold their values and only the block changed. */
  ghost predicate Rows(mem: seq<Byte>, before: seq<Byte>, p: int, so: int, n: int, width: int, vals: seq<seq<Byte>>, k: int) {
    && 1 <= n <= 4 && |vals| == 4 && 0 <= k <= 4
    && (forall i :: 0 <= i < 4 ==> |vals[i]| == width)
    && Inside(p, so, n, width, |before|) && (n == 1 || so >= width)
    && (forall i, j :: k <= i < n && 0 <= j < width ==> Peek(mem, Cell(p, so, i, j)) == vals[i][j])
    && OnlyBlock(before, mem, p, so, n, width)
  }

  /** Store vector `k` at its row, or at row 0 when the block is narrower. */
  method StoreRow(output: array<Byte>, o: int, v: seq<Byte>, ghost before: seq<Byte>, ghost p: int, ghost so: int, ghost n: int,
                  ghost width: int, ghost vals: seq<seq<Byte>>, ghost k: int)
    requires 0 <= k < 4 && Rows(output[..], before, p, so, n, width, vals, k + 1)
    requires v == vals[k] && o == Cell(p, so, if k < n then k else 0, 0)
    modifies output
    ensures Rows(output[..], before, p, so, n, width, vals, k)
  {
    ghost var row := if k < n then k else 0;
    InsideCell(p, so, n, width, output.Length, row, 0);
    InsideCell(p, so, n, width, output.Length, row, width - 1);
    ghost var mem := output[..];
    Store(output, o, v);
    RowStored(mem, output[..], before, p, so, n, width, row, v);
    assert forall i, j :: k <= i < n && i != row && 0 <= j < width ==> Peek(mem, Cell(p, so, i, j)) == vals[i][j];
  }

  /** Store four vectors, last row first, so that row 0 wins where rows coincide. */
  method StoreRows(output: array<Byte>, o0: int, o1: int, o2: int, o3: int, vals: seq<seq<Byte>>, ghost so: int, ghost n: int, ghost width: int)
    requires 1 <= n <= 4 && |vals| == 4 && (forall i :: 0 <= i < 4 ==> |vals[i]| == width)
    requires Inside(o0, so, n, width, output.Length) && (n == 1 || so >= width)
    requires o1 == Cell(o0, so, if 1 < n then 1 else 0, 0)
    requires o2 == Cell(o0, so, if 2 < n then 2 else 0, 0)
    requires o3 == Cell(o0, so, if 3 < n then 3 else 0, 0)
    modifies output
    ensures OnlyBlock(old(output[..]), output[..], o0, so, n, width)
    ensures forall i, j :: 0 <= i < n && 0 <= j < width ==> Peek(output[..], Cell(o0, so, i, j)) == vals[i][j]
  {
    ghost var before := output[..];
    StoreRow(output, o3, vals[3], before, o0, so, n, width, vals, 3);
    StoreRow(output, o2, vals[2], before, o0, so, n, width, vals, 2);
    StoreRow(output, o1, vals[1], before, o0, so, n, width, vals, 1);
    StoreRow(output, o0, vals[0], before, o0, so, n, width, vals, 0);
  }

  /** The bytes of lanes `from` to `from + width` of each vector. */
  function Part(v: seq<Vec>, from: int, width: int): (r: seq<seq<Byte>>)
    requires |v| == 4 && 0 <= from && 0 <= width && from + width <= 16
    ensures |r| == 4 && forall i :: 0 <= i < 4 ==> |r[i]| == width
  {
    [v[0][from..from + width], v[1][from..from + width], v[2][from..from + width], v[3][from..from + width]]
  }

  /** What storing `h` words of each of the looked-up vectors means for the block. */
  lemma RowsAreWords(inp: seq<Byte>, junk: int -> Byte, ib: int, si: int, out: seq<Byte>, ob: int, so: int,
                     width: int, height: int, c0: int, r0: int, n: int, h: int, first: int, v: seq<Vec>)
    requires Inside(ib, si, height, width * 4, |inp|)
    requires 0 <= c0 && 1 <= n <= 4 && c0 + n <= width
    requires 0 <= first && 0 <= h && first + h <= 4 && 0 <= r0 && r0 + h <= height
    requires |v| == 4
    requires forall i :: first <= i < first + h ==> v[i] == Load(inp, junk, Slot(ib, si, 4, r0 + i - first, c0))
    requires forall k, j :: 0 <= k < n && 0 <= j < 4 * h ==>
               Peek(out, Cell(Slot(ob, so, 4, c0, r0), so, k, j)) == Part(Lookups(v), 4 * first, 4 * h)[k][j]
    ensures TransposedElems(4, inp, ib, si, out, ob, so, c0, c0 + n, r0, r0 + h)
  {
    forall c, r | c0 <= c < c0 + n && r0 <= r < r0 + h
      ensures Elem(out, Slot(ob, so, 4, c, r), 4) == Elem(inp, Slot(ib, si, 4, r, c), 4)
    {
      var k, i := c - c0, r - r0;
      var a := Slot(ob, so, 4, c, r);
      var row := v[first + i];
      assert row == Load(inp, junk, Slot(ib, si, 4, r, c0));
      forall b | 0 <= b < 4
        ensures Elem(out, a, 4)[b] == row[4 * k + b]
      {
        SlotByte(ob, so, c0, r0, k, i, b);
        assert Peek(out, Cell(Slot(ob, so, 4, c0, r0), so, k, 4 * i + b)) == Part(Lookups(v), 4 * first, 4 * h)[k][4 * i + b];
        PartByte(v, first, h, k, i, b);
      }
      WordIsElem(inp, junk, ib, si, width, height, out, a, r, c0, c);
    }
  }

  /** Four bytes of a loaded row are an element of the input. */
  lemma WordIsElem(inp: seq<Byte>, junk: int -> Byte, ib: int, si: int, width: int, height: int, out: seq<Byte>, a: int, r: int, c0: int, c: int)
    requires Inside(ib, si, height, width * 4, |inp|) && 0 <= r < height && 0 <= c0 <= c < width && c < c0 + 4
    requires forall b :: 0 <= b < 4 ==> Elem(out, a, 4)[b] == Load(inp, junk, Slot(ib, si, 4, r, c0))[4 * (c - c0) + b]
    ensures Elem(out, a, 4) == Elem(inp, Slot(ib, si, 4, r, c), 4)
  {
    forall b | 0 <= b < 4
      ensures Elem(out, a, 4)[b] == Elem(inp, Slot(ib, si, 4, r, c), 4)[b]
    {
      LoadedByte(inp, junk, ib, si, width, height, r, c0, c, b);
    }
  }

  lemma SlotByte(ob: int, so: int, c0: int, r0: int, k: int, i: int, b: int)
    ensures Slot(ob, so, 4, c0 + k, r0 + i) + b == Cell(Slot(ob, so, 4, c0, r0), so, k, 4 * i + b)
  {
    MulSum(c0, k, so);
  }

  lemma PartByte(v: seq<Vec>, first: int, h: int, k: int, i: int, b: int)
    requires |v| == 4 && 0 <= first && first + h <= 4 && 0 <= k < 4 && 0 <= i < h && 0 <= b < 4
    ensures Part(Lookups(v), 4 * first, 4 * h)[k][4 * i + b] == v[first + i][4 * k + b]
  {
    LookupsAt(v, k, first + i, b);
    var l := Lookups(v);
    if k == 0 {} else if k == 1 {} else if k == 2 {} else {}
  }

  lemma LoadedByte(inp: seq<Byte>, junk: int -> Byte, ib: int, si: int, width: int, height: int, r: int, c0: int, c: int, b: int)
    requires Inside(ib, si, height, width * 4, |inp|) && 0 <= r < height && 0 <= c0 <= c < width && c < c0 + 4 && 0 <= b < 4
    ensures Load(inp, junk, Slot(ib, si, 4, r, c0))[4 * (c - c0) + b] == Peek(inp, Slot(ib, si, 4, r, c) + b)
  {
    assert Slot(ib, si, 4, r, c) + b == Cell(ib, si, r, 4 * c + b);
    assert Slot(ib, si, 4, r, c0) + (4 * (c - c0) + b) == Cell(ib, si, r, 4 * c + b);
    InsideCell(ib, si, height, width * 4, |inp|, r, 4 * c + b);
  }

  /** The state of a block: the columns before `c0` are complete, the group of `n` columns
      from `c0` on is complete up to row `r0`, and nothing outside the block changed. */
  ghost predicate Partial(inp: seq<Byte>, ib: int, si: int, before: seq<Byte>, out: seq<Byte>, ob: int, so: int,
                          width: int, height: int, c0: int, n: int, r0: int) {
    && Inside(ib, si, height, width * 4, |inp|) && Inside(ob, so, width, height * 4, |before|)
    && (width == 1 || so >= height * 4)
    && 0 <= c0 && 1 <= n <= 4 && c0 + n <= width && 0 <= r0 <= height
    && TransposedElems(4, inp, ib, si, out, ob, so, 0, c0, 0, height)
    && TransposedElems(4, inp, ib, si, out, ob, so, c0, c0 + n, 0, r0)
    && OnlyBlock(before, out, ob, so, width, height * 4)
  }

  lemma PartialStep(inp: seq<Byte>, ib: int, si: int, before: seq<Byte>, mem: seq<Byte>, out: seq<Byte>, ob: int, so: int,
                    width: int, height: int, c0: int, n: int, r0: int, h: int)
    requires Partial(inp, ib, si, before, mem, ob, so, width, height, c0, n, r0) && 1 <= h && r0 + h <= height
    requires OnlyBlock(mem, out, Slot(ob, so, 4, c0, r0), so, n, h * 4)
    requires TransposedElems(4, inp, ib, si, out, ob, so, c0, c0 + n, r0, r0 + h)
    ensures Partial(inp, ib, si, before, out, ob, so, width, height, c0, n, r0 + h)
  {
    ElemsKeep(4, inp, ib, si, mem, out, ob, so, width, height, c0, r0, n, h, 0, c0, 0, height);
    ElemsKeep(4, inp, ib, si, mem, out, ob, so, width, height, c0, r0, n, h, c0, c0 + n, 0, r0);
    OnlyBlockWiden(before, mem, out, ob, so, width, height * 4, c0, r0 * 4, n, h * 4);
  }

  /** Output pointers of a column group: row `k` of the group, or row 0 past its width. */
  ghost predicate OutPointers(o0: int, o1: int, o2: int, o3: int, so: int, n: int) {
    && o1 == Cell(o0, so, if 1 < n then 1 else 0, 0)
    && o2 == Cell(o0, so, if 2 < n then 2 else 0, 0)
    && o3 == Cell(o0, so, if 3 < n then 3 else 0, 0)
  }

  /** Store `h` words of each looked-up vector: rows `r0` to `r0 + h` of the column group. */
  method PutWords(output: array<Byte>, o0: int, o1: int, o2: int, o3: int, vals: seq<seq<Byte>>,
                  ghost inp: seq<Byte>, ghost junk: int -> Byte, ghost ib: int, ghost si: int, ghost before: seq<Byte>, ghost ob: int,
                  ghost so: int, ghost width: int, ghost height: int, ghost c0: int, ghost n: int, ghost r0: int, ghost h: int,
                  ghost first: int, ghost v: seq<Vec>)
    requires Partial(inp, ib, si, before, output[..], ob, so, width, height, c0, n, r0)
    requires 0 <= first && 1 <= h && first + h <= 4 && r0 + h <= height
    requires |v| == 4 && vals == Part(Lookups(v), 4 * first, 4 * h)
    requires forall i :: first <= i < first + h ==> v[i] == Load(inp, junk, Slot(ib, si, 4, r0 + i - first, c0))
    requires o0 == Slot(ob, so, 4, c0, r0) && OutPointers(o0, o1, o2, o3, so, n)
    modifies output
    ensures Partial(inp, ib, si, before, output[..], ob, so, width, height, c0, n, r0 + h)
  {
    ghost var mem := output[..];
    InsideBlock(ob, so, width, height * 4, output.Length, c0, r0 * 4, n, h * 4);
    StoreRows(output, o0, o1, o2, o3, vals, so, n, h * 4);
    RowsAreWords(inp, junk, ib, si, output[..], ob, so, width, height, c0, r0, n, h, first, v);
    PartialStep(inp, ib, si, before, mem, output[..], ob, so, width, height, c0, n, r0, h);
  }

  /** How far four loads, and those that reached `reach` before, have reached. */
  ghost function Farthest(reach: int, i0: int, i1: int, i2: int, i3: int): int {
    Max(reach, Max(Max(i0, i1), Max(i2, i3)) + 16)
  }

  /** The end of the last row of a block. */
  ghost function BlockEnd(ib: int, si: int, width: int, height: int): int {
    Cell(ib, si, height - 1, width * 4)
  }

  /** A load of four columns that lie in the block stays in the block. */
  lemma LoadInBlock(ib: int, si: int, width: int, height: int, c0: int, r: int)
    requires 0 <= si && 0 <= r < height && c0 + 4 <= width
    ensures Slot(ib, si, 4, r, c0) + 16 <= BlockEnd(ib, si, width, height)
  {
    MulMono(r, height - 1, si);
  }

  /** Four full rows of a column group. */
  method FullTile(input: array<Byte>, junk: int -> Byte, i0: int, i1: int, i2: int, i3: int,
                  output: array<Byte>, o0: int, o1: int, o2: int, o3: int,
                  ghost ib: int, ghost si: int, ghost before: seq<Byte>, ghost ob: int, ghost so: int,
                  ghost width: int, ghost height: int, ghost c0: int, ghost n: int, ghost r0: int, ghost reach: int)
    returns (ghost far: int)
    requires input != output
    requires Partial(input[..], ib, si, before, output[..], ob, so, width, height, c0, n, r0) && r0 + 4 <= height
    requires i0 == Slot(ib, si, 4, r0, c0) && i1 == Slot(ib, si, 4, r0 + 1, c0)
    requires i2 == Slot(ib, si, 4, r0 + 2, c0) && i3 == Slot(ib, si, 4, r0 + 3, c0)
    requires o0 == Slot(ob, so, 4, c0, r0) && OutPointers(o0, o1, o2, o3, so, n)
    modifies output
    ensures Partial(input[..], ib, si, before, output[..], ob, so, width, height, c0, n, r0 + 4)
    ensures c0 + 4 <= width ==> far <= Max(reach, BlockEnd(ib, si, width, height))
  {
    var mem := input[..];
    var v := [Load(mem, junk, i0), Load(mem, junk, i1), Load(mem, junk, i2), Load(mem, junk, i3)];
    far := Farthest(reach, i0, i1, i2, i3);
    if c0 + 4 <= width {
      LoadInBlock(ib, si, width, height, c0, r0);
      LoadInBlock(ib, si, width, height, c0, r0 + 1);
      LoadInBlock(ib, si, width, height, c0, r0 + 2);
      LoadInBlock(ib, si, width, height, c0, r0 + 3);
    }
    var look := Lookups(v);
    var vals := Part(look, 0, 16);
    PutWords(output, o0, o1, o2, o3, vals, mem, junk, ib, si, before, ob, so, width, height, c0, n, r0, 4, 0, v);
    assert input[..] == mem;
  }

  /** The one to three rows that are left. */
  method LastRows(input: array<Byte>, junk: int -> Byte, p0: int, p1: int, p2: int, p3: int,
                  output: array<Byte>, q0: int, q1: int, q2: int, q3: int, bh: int,
                  ghost ib: int, ghost si: int, ghost before: seq<Byte>, ghost ob: int, ghost so: int,
                  ghost width: int, ghost height: int, ghost c0: int, ghost n: int, ghost r0: int, ghost reach: int)
    returns (o0: int, o1: int, o2: int, o3: int, ghost far: int)
    requires input != output
    requires 1 <= bh <= 3 && r0 + bh == height
    requires Partial(input[..], ib, si, before, output[..], ob, so, width, height, c0, n, r0)
    requires p0 == Slot(ib, si, 4, r0, c0) && (1 < bh ==> p1 == Slot(ib, si, 4, r0 + 1, c0))
    requires 2 < bh ==> p2 == Slot(ib, si, 4, r0 + 2, c0)
    requires q0 == Slot(ob, so, 4, c0, r0) && OutPointers(q0, q1, q2, q3, so, n)
    modifies output
    ensures Partial(input[..], ib, si, before, output[..], ob, so, width, height, c0, n, height)
    ensures var moved := if bh >= 2 then 8 else 0;
            o0 == q0 + moved && o1 == q1 + moved && o2 == q2 + moved && o3 == q3 + moved
    ensures c0 + 4 <= width ==> far <= Max(reach, BlockEnd(ib, si, width, height))
  {
    var mem := input[..];
    var i0, i1, i2, i3 := p0, p1, p2, p3;
    o0, o1, o2, o3 := q0, q1, q2, q3;
    if bh < 4 {
      i3 := i0;
    }
    if bh <= 2 {
      i2 := i0;
    }
    if bh < 2 {
      i1 := i0;
    }
    var v := [Load(mem, junk, i0), Load(mem, junk, i1), Load(mem, junk, i2), Load(mem, junk, i3)];
    far := Farthest(reach, i0, i1, i2, i3);
    if c0 + 4 <= width {
      LoadInBlock(ib, si, width, height, c0, r0);
      LoadInBlock(ib, si, width, height, c0, Min(r0 + 1, height - 1));
      LoadInBlock(ib, si, width, height, c0, Min(r0 + 2, height - 1));
    }
    var look := Lookups(v);
    var low := Part(look, 0, 4);
    if (bh / 2) % 2 == 1 {
      var pairs := Part(look, 0, 8);
      PutWords(output, o0, o1, o2, o3, pairs, mem, junk, ib, si, before, ob, so, width, height, c0, n, r0, 2, 0, v);
      o0, o1, o2, o3 := o0 + 8, o1 + 8, o2 + 8, o3 + 8;
      low := Part(look, 8, 4);
    }
    if bh % 2 == 1 {
      ghost var done := if bh == 3 then 2 else 0;
      PutWords(output, o0, o1, o2, o3, low, mem, junk, ib, si, before, ob, so, width, height, c0, n, r0 + done, 1, done, v);
    }
    assert input[..] == mem;
  }

  /** All rows of one group of at most four columns. */
  method ColumnGroup(input: array<Byte>, junk: int -> Byte, p0: int, p1: int, p2: int, p3: int,
                     output: array<Byte>, q0: int, q1: int, q2: int, q3: int, si: int, blockHeight: int,
                     ghost ib: int, ghost before: seq<Byte>, ghost ob: int, ghost so: int,
                     ghost width: int, ghost c0: int, ghost n: int, ghost reach: int)
    returns (i0: int, o0: int, o1: int, o2: int, o3: int, ghost far: int)
    requires input != output && 1 <= blockHeight
    requires Partial(input[..], ib, si, before, output[..], ob, so, width, blockHeight, c0, n, 0)
    requires p0 == Slot(ib, si, 4, 0, c0) && (1 < blockHeight ==> p1 == p0 + si)
    requires (2 < blockHeight ==> p2 == p0 + 2 * si) && (3 < blockHeight ==> p3 == p0 + 3 * si)
    requires q0 == Slot(ob, so, 4, c0, 0) && OutPointers(q0, q1, q2, q3, so, n)
    modifies output
    ensures Partial(input[..], ib, si, before, output[..], ob, so, width, blockHeight, c0, n, blockHeight)
    ensures i0 == p0 + (blockHeight - blockHeight % 4) * si
    ensures var moved := 4 * (blockHeight - blockHeight % 2);
            o0 == q0 + moved && o1 == q1 + moved && o2 == q2 + moved && o3 == q3 + moved
    ensures c0 + 4 <= width ==> far <= Max(reach, BlockEnd(ib, si, width, blockHeight))
  {
    i0, far := p0, reach;
    var i1, i2, i3 := p1, p2, p3;
    o0, o1, o2, o3 := q0, q1, q2, q3;
    var tileStride := 4 * si;
    var bh := blockHeight;
    ghost var t, inp := 0, input[..];
    while bh >= 4
      invariant input[..] == inp && 0 <= t && 0 <= bh && bh == blockHeight - 4 * t
      invariant Partial(inp, ib, si, before, output[..], ob, so, width, blockHeight, c0, n, 4 * t)
      invariant i0 == p0 + 4 * t * si && (1 < blockHeight ==> i1 == i0 + si)
      invariant (2 < blockHeight ==> i2 == i0 + 2 * si) && (3 < blockHeight ==> i3 == i0 + 3 * si)
      invariant o0 == q0 + 16 * t && o1 == q1 + 16 * t && o2 == q2 + 16 * t && o3 == q3 + 16 * t
      invariant c0 + 4 <= width ==> far <= Max(reach, BlockEnd(ib, si, width, blockHeight))
    {
      RowSlots(ib, si, c0, 4 * t);
      far := FullTile(input, junk, i0, i1, i2, i3, output, o0, o1, o2, o3, ib, si, before, ob, so, width, blockHeight, c0, n, 4 * t, far);
      i0, i1, i2, i3 := i0 + tileStride, i1 + tileStride, i2 + tileStride, i3 + tileStride;
      o0, o1, o2, o3 := o0 + 16, o1 + 16, o2 + 16, o3 + 16;
      bh := bh - 4;
      MulSum(4 * t, 4, si);
      t := t + 1;
    }
    if bh != 0 {
      RowSlots(ib, si, c0, 4 * t);
      o0, o1, o2, o3, far := LastRows(input, junk, i0, i1, i2, i3, output, o0, o1, o2, o3, bh, ib, si, before, ob, so, width, blockHeight, c0, n, 4 * t, far);
    }
    RoundDown(blockHeight, t, bh);
  }

  lemma RowSlots(ib: int, si: int, c0: int, r: int)
    ensures Slot(ib, si, 4, r, c0) == Slot(ib, si, 4, 0, c0) + r * si
    ensures Slot(ib, si, 4, r + 1, c0) == Slot(ib, si, 4, r, c0) + si
    ensures Slot(ib, si, 4, r + 2, c0) == Slot(ib, si, 4, r, c0) + 2 * si
    ensures Slot(ib, si, 4, r + 3, c0) == Slot(ib, si, 4, r, c0) + 3 * si
  {
    MulSum(r, 1, si);
    MulSum(r, 2, si);
    MulSum(r, 3, si);
  }

  lemma RoundDown(height: int, t: int, bh: int)
    requires 0 <= bh < 4 && height == 4 * t + bh
    ensures height - height % 4 == 4 * t
    ensures 4 * (height - height % 2) == 16 * t + (if bh >= 2 then 8 else 0)
  {
    assert height / 4 == t && height % 4 == bh;
    var half := if bh >= 2 then 2 * t + 1 else 2 * t;
    assert height / 2 == half;
  }

  /** Transpose a block of words of any width and height, four columns at a time.  Nothing
      happens for an empty block, and when the width is a multiple of four no load leaves the
      block. */
  method Kernel(input: array<Byte>, junk: int -> Byte, inBase: int, output: array<Byte>, outBase: int,
                si: int, so: int, blockWidth: int, blockHeight: int, ghost reach: int)
    returns (ghost far: int)
    requires input != output && 0 <= blockWidth && 0 <= blockHeight
    requires blockWidth > 0 && blockHeight > 0 ==>
               && (blockWidth == 1 || so >= blockHeight * 4)
               && Inside(inBase, si, blockHeight, blockWidth * 4, input.Length)
               && Inside(outBase, so, blockWidth, blockHeight * 4, output.Length)
    modifies output
    ensures TransposedElems(4, input[..], inBase, si, output[..], outBase, so, 0, blockWidth, 0, blockHeight)
    ensures OnlyBlock(old(output[..]), output[..], outBase, so, blockWidth, blockHeight * 4)
    ensures blockWidth % 4 == 0 ==> far <= Max(reach, BlockEnd(inBase, si, blockWidth, blockHeight))
  {
    far := reach;
    if blockWidth == 0 || blockHeight == 0 {
      return;
    }
    var inputReset := 16 - (blockHeight - blockHeight % 4) * si;
    var outputReset := 4 * so - (blockHeight - blockHeight % 2) * 4;
    var i0 := inBase;
    var i1 := if blockHeight > 1 then i0 + si else i0;
    var i2 := if blockHeight > 2 then i0 + 2 * si else i0;
    var i3 := if blockHeight > 3 then i0 + 3 * si else i0;
    var o0 := outBase;
    var o1 := if blockWidth > 1 then o0 + so else o0;
    var o2 := if blockWidth > 2 then o0 + 2 * so else o0;
    var o3 := if blockWidth > 3 then o0 + 3 * so else o0;
    var width := blockWidth;
    ghost var c0, inp, before, groups := 0, input[..], output[..], 0;
    while width != 0
      invariant blockWidth % 4 == 0 ==> far <= Max(reach, BlockEnd(inBase, si, blockWidth, blockHeight))
      invariant c0 == 4 * groups
      invariant input[..] == inp && 0 <= c0 && 0 <= width && width == Doz(blockWidth, c0)
      invariant TransposedElems(4, inp, inBase, si, output[..], outBase, so, 0, Min(c0, blockWidth), 0, blockHeight)
      invariant OnlyBlock(before, output[..], outBase, so, blockWidth, blockHeight * 4)
      invariant i0 == Slot(inBase, si, 4, 0, c0) && (1 < blockHeight ==> i1 == i0 + si)
      invariant (2 < blockHeight ==> i2 == i0 + 2 * si) && (3 < blockHeight ==> i3 == i0 + 3 * si)
      invariant o0 == Slot(outBase, so, 4, c0, 0) && (1 < width ==> o1 == o0 + so)
      invariant (2 < width ==> o2 == o0 + 2 * so) && (3 < width ==> o3 == o0 + 3 * so)
      decreases width
    {
      if width < 2 {
        o1 := o0;
      }
      if width <= 2 {
        o2 := o0;
      }
      if width < 4 {
        o3 := o0;
      }
      ghost var n := Min(width, 4);
      WholeGroup(blockWidth, groups);
      i0, o0, o1, o2, o3, far := ColumnGroup(input, junk, i0, i1, i2, i3, output, o0, o1, o2, o3, si, blockHeight,
                                             inBase, before, outBase, so, blockWidth, c0, n, far);
      i0 := i0 + inputReset;
      i1 := if blockHeight > 1 then i0 + si else i0;
      i2 := if blockHeight > 2 then i0 + 2 * si else i0;
      i3 := if blockHeight > 3 then i0 + 3 * si else i0;
      o0, o1, o2, o3 := o0 + outputReset, o1 + outputReset, o2 + outputReset, o3 + outputReset;
      width := Doz(width, 4);
      MulSum(c0, 4, so);
      c0, groups := c0 + 4, groups + 1;
    }
  }

  lemma WholeGroup(width: int, groups: int)
    requires 4 * groups < width
    ensures width % 4 == 0 ==> 4 * groups + 4 <= width
  {
  }
}
