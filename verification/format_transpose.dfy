/**
 The format handler's transpose: the plain loops, the in-place forms and the accelerated
 path, all with the same result.
 */
module FormatTranspose {
  import opened Common
  import opened Cells
  import opened XnnTranspose

  // ----- Whole matrices as byte strings -----

  lemma TotalFits(es: nat, rows: int, cols: int, inLen: int, outLen: int)
    requires 1 <= es && 1 <= rows && 1 <= cols
    requires TotalBytes(rows, cols, es) <= inLen && TotalBytes(rows, cols, es) <= outLen
    ensures Fits(es, rows, cols, inLen, outLen)
  {
    MulMono(1, cols, es);
    MulMono(1, rows, es);
    RowsTotal(rows, cols * es);
    RowsTotal(cols, rows * es);
    TotalForms(rows, cols, es);
  }

  lemma RowsTotal(n: int, w: int)
    ensures (n - 1) * w + w == n * w
  {
  }

  lemma TotalForms(rows: int, cols: int, es: int)
    ensures rows * (cols * es) == TotalBytes(rows, cols, es)
    ensures cols * (rows * es) == TotalBytes(rows, cols, es)
  {
  }

  /** Element slots of a matrix lie within its bytes. */
  lemma SlotInTotal(es: nat, rows: int, cols: int, c: int, r: int)
    requires 1 <= es && 0 <= c < cols && 0 <= r < rows
    ensures 0 <= Slot(0, rows * es, es, c, r) && Slot(0, rows * es, es, c, r) + es <= TotalBytes(rows, cols, es)
  {
    TotalForms(rows, cols, es);
    MulSum(r, 1, es);
    MulMono(r + 1, rows, es);
    MulMono(0, r, es);
    MulMono(0, c, rows * es);
    MulSum(c, 1, rows * es);
    MulMono(c + 1, cols, rows * es);
  }

  /** Every byte of a matrix is in some slot. */
  lemma SlotSplit(es: nat, rows: int, cols: int, k: int) returns (c: int, r: int, b: int)
    requires 1 <= es && 1 <= rows && 1 <= cols && 0 <= k < TotalBytes(rows, cols, es)
    ensures 0 <= c < cols && 0 <= r < rows && 0 <= b < es && k == Slot(0, rows * es, es, c, r) + b
  {
    TotalForms(rows, cols, es);
    MulMono(1, rows, es);
    var m;
    c, m := CellSplit(rows * es, cols, k);
    r, b := CellSplit(es, rows, m);
  }

  /** Equal elements have equal bytes. */
  lemma SameByte(a: seq<Byte>, s: int, b: seq<Byte>, u: int, es: nat, j: int)
    requires 0 <= j < es && Elem(a, s, es) == Elem(b, u, es)
    ensures Peek(a, s + j) == Peek(b, u + j)
  {
    assert Elem(a, s, es)[j] == Elem(b, u, es)[j];
  }

  /** The transposed bytes are determined by the input, so all paths agree. */
  lemma RegionUnique(es: nat, x: seq<Byte>, a: seq<Byte>, b: seq<Byte>, rows: int, cols: int)
    requires 1 <= es && 1 <= rows && 1 <= cols
    requires |a| == TotalBytes(rows, cols, es) && |b| == |a|
    requires Region(es, x, a, rows, cols, 0, cols, 0, rows) && Region(es, x, b, rows, cols, 0, cols, 0, rows)
    ensures a == b
  {
    forall k | 0 <= k < |a|
      ensures a[k] == b[k]
    {
      var c, r, j := SlotSplit(es, rows, cols, k);
      var s, u := Slot(0, rows * es, es, c, r), Slot(0, cols * es, es, r, c);
      SameByte(a, s, x, u, es, j);
      SameByte(b, s, x, u, es, j);
    }
  }

  /** Transposing twice gives the matrix back. */
  lemma TransposeTwice(es: nat, x: seq<Byte>, t: seq<Byte>, y: seq<Byte>, rows: int, cols: int)
    requires 1 <= es && 1 <= rows && 1 <= cols
    requires |x| == |y| == TotalBytes(rows, cols, es)
    requires Region(es, x, t, rows, cols, 0, cols, 0, rows) && Region(es, t, y, cols, rows, 0, rows, 0, cols)
    ensures y == x
  {
    assert TotalBytes(rows, cols, es) == TotalBytes(cols, rows, es);
    forall k | 0 <= k < |x|
      ensures y[k] == x[k]
    {
      var r, c, j := SlotSplit(es, cols, rows, k);
      var s := Slot(0, cols * es, es, r, c);
      assert Elem(y, s, es) == Elem(t, Slot(0, rows * es, es, c, r), es);
      assert Elem(t, Slot(0, rows * es, es, c, r), es) == Elem(x, s, es);
      SameByte(y, s, x, s, es, j);
    }
  }

  /** Only the bytes of the matrix matter. */
  lemma RegionPrefix(es: nat, x: seq<Byte>, x': seq<Byte>, a: seq<Byte>, a': seq<Byte>, rows: int, cols: int)
    requires 1 <= es && 1 <= rows && 1 <= cols
    requires forall k :: 0 <= k < TotalBytes(rows, cols, es) ==> Peek(a', k) == Peek(a, k) && Peek(x', k) == Peek(x, k)
    requires Region(es, x, a, rows, cols, 0, cols, 0, rows)
    ensures Region(es, x', a', rows, cols, 0, cols, 0, rows)
  {
    forall c, r | 0 <= c < cols && 0 <= r < rows
      ensures Elem(a', Slot(0, rows * es, es, c, r), es) == Elem(x', Slot(0, cols * es, es, r, c), es)
    {
      SlotInTotal(es, rows, cols, c, r);
      SlotInTotal(es, cols, rows, r, c);
      assert TotalBytes(rows, cols, es) == TotalBytes(cols, rows, es);
      var s, u := Slot(0, rows * es, es, c, r), Slot(0, cols * es, es, r, c);
      ElemSame(a, a', s, es);
      ElemSame(x, x', u, es);
      assert Elem(a, s, es) == Elem(x, u, es);
    }
  }

  lemma ElemSame(a: seq<Byte>, a': seq<Byte>, s: int, es: nat)
    requires forall k :: s <= k < s + es ==> Peek(a', k) == Peek(a, k)
    ensures Elem(a', s, es) == Elem(a, s, es)
  {
    forall b | 0 <= b < es
      ensures Elem(a', s, es)[b] == Elem(a, s, es)[b]
    {
      assert Peek(a', s + b) == Peek(a, s + b);
    }
  }

  // ----- Square matrices: swapping in place -----

  /** The pair of cells {a, b} and {b, a} comes before pair {i, j} in the swap order. */
  predicate Swapped(a: int, b: int, i: int, j: int) {
    var lo, hi := if a < b then a else b, if a < b then b else a;
    lo < i || (lo == i && hi < j)
  }

  ghost predicate HalfSwapped(es: nat, before: seq<Byte>, mem: seq<Byte>, n: int, i: int, j: int) {
    && |mem| == |before|
    && (forall a, b :: 0 <= a < n && 0 <= b < n ==>
          Elem(mem, Slot(0, n * es, es, a, b), es) == Expected(es, before, n, i, j, a, b))
    && (forall k :: TotalBytes(n, n, es) <= k < |mem| ==> Peek(mem, k) == Peek(before, k))
  }

  lemma SlotsApart(es: nat, n: int, a: int, b: int, c: int, d: int)
    requires 1 <= es && 0 <= a < n && 0 <= b < n && 0 <= c < n && 0 <= d < n && (a != c || b != d)
    ensures Slot(0, n * es, es, a, b) + es <= Slot(0, n * es, es, c, d) || Slot(0, n * es, es, c, d) + es <= Slot(0, n * es, es, a, b)
  {
    var p, q := a * n + b, c * n + d;
    assert Slot(0, n * es, es, a, b) == p * es && Slot(0, n * es, es, c, d) == q * es by {
      MulSum(a * n, b, es);
      MulSum(c * n, d, es);
      assert a * (n * es) == a * n * es && c * (n * es) == c * n * es;
    }
    if p < q {
      MulMono(p + 1, q, es);
      MulSum(p, 1, es);
    } else if q < p {
      MulMono(q + 1, p, es);
      MulSum(q, 1, es);
    } else {
      CellInjective(n, a, b, c, d);
    }
  }

  /** Swap two elements through a temporary. */
  method SwapElements(data: array<Byte>, p: int, q: int, es: nat)
    requires 1 <= es && 0 <= p && p + es <= data.Length && 0 <= q && q + es <= data.Length && (p + es <= q || q + es <= p)
    modifies data
    ensures Exchanged(old(data[..]), data[..], p, q, es)
  {
    ghost var before := data[..];
    var temp := data[p..p + es];
    forall b | 0 <= b < es {
      data[p + b] := data[q + b];
    }
    forall b | 0 <= b < es {
      data[q + b] := temp[b];
    }
    ElemFrom(before, data[..], p, q, es);
    ElemFrom(before, data[..], q, p, es);
  }

  /** `mem'` is `mem` with the elements at `p` and `q` exchanged. */
  ghost predicate Exchanged(mem: seq<Byte>, mem': seq<Byte>, p: int, q: int, es: nat) {
    && |mem'| == |mem|
    && 0 <= p && p + es <= |mem| && 0 <= q && q + es <= |mem| && (p + es <= q || q + es <= p)
    && Elem(mem', p, es) == Elem(mem, q, es) && Elem(mem', q, es) == Elem(mem, p, es)
    && forall k :: 0 <= k < |mem| && !(p <= k < p + es) && !(q <= k < q + es) ==> mem'[k] == mem[k]
  }

  /** What cell (a, b) must hold once the pairs before {i, j} are exchanged. */
  ghost function Expected(es: nat, before: seq<Byte>, n: int, i: int, j: int, a: int, b: int): seq<Byte> {
    if Swapped(a, b, i, j) then Elem(before, Slot(0, n * es, es, b, a), es) else Elem(before, Slot(0, n * es, es, a, b), es)
  }

  lemma SwapStep(es: nat, before: seq<Byte>, mem: seq<Byte>, mem': seq<Byte>, n: int, i: int, j: int)
    requires 1 <= es && 0 <= i < j < n && TotalBytes(n, n, es) <= |before| && HalfSwapped(es, before, mem, n, i, j)
    requires Exchanged(mem, mem', Slot(0, n * es, es, i, j), Slot(0, n * es, es, j, i), es)
    ensures HalfSwapped(es, before, mem', n, i, j + 1)
  {
    forall a, b | 0 <= a < n && 0 <= b < n
      ensures Elem(mem', Slot(0, n * es, es, a, b), es) == Expected(es, before, n, i, j + 1, a, b)
    {
      assert Elem(mem, Slot(0, n * es, es, a, b), es) == Expected(es, before, n, i, j, a, b);
      assert Elem(mem, Slot(0, n * es, es, b, a), es) == Expected(es, before, n, i, j, b, a);
      SwapCell(es, before, mem, mem', n, i, j, a, b);
    }
    SwapTail(es, mem, mem', n, i, j);
  }

  lemma SwapCell(es: nat, before: seq<Byte>, mem: seq<Byte>, mem': seq<Byte>, n: int, i: int, j: int, a: int, b: int)
    requires 1 <= es && 0 <= i < j < n && TotalBytes(n, n, es) <= |mem|
    requires Exchanged(mem, mem', Slot(0, n * es, es, i, j), Slot(0, n * es, es, j, i), es)
    requires 0 <= a < n && 0 <= b < n
    requires Elem(mem, Slot(0, n * es, es, a, b), es) == Expected(es, before, n, i, j, a, b)
    requires Elem(mem, Slot(0, n * es, es, b, a), es) == Expected(es, before, n, i, j, b, a)
    ensures Elem(mem', Slot(0, n * es, es, a, b), es) == Expected(es, before, n, i, j + 1, a, b)
  {
    if (a == i && b == j) || (a == j && b == i) {
      assert Swapped(a, b, i, j + 1) && !Swapped(a, b, i, j) && !Swapped(b, a, i, j);
    } else {
      OtherElem(es, mem, mem', n, i, j, a, b);
    }
  }

  lemma SwapTail(es: nat, mem: seq<Byte>, mem': seq<Byte>, n: int, i: int, j: int)
    requires 1 <= es && 0 <= i < n && 0 <= j < n && TotalBytes(n, n, es) <= |mem|
    requires Exchanged(mem, mem', Slot(0, n * es, es, i, j), Slot(0, n * es, es, j, i), es)
    ensures forall k :: TotalBytes(n, n, es) <= k < |mem| ==> Peek(mem', k) == Peek(mem, k)
  {
    SlotInTotal(es, n, n, i, j);
    SlotInTotal(es, n, n, j, i);
  }

  lemma OtherElem(es: nat, mem: seq<Byte>, mem': seq<Byte>, n: int, i: int, j: int, a: int, b: int)
    requires 1 <= es && 0 <= i < j < n && TotalBytes(n, n, es) <= |mem|
    requires Exchanged(mem, mem', Slot(0, n * es, es, i, j), Slot(0, n * es, es, j, i), es)
    requires 0 <= a < n && 0 <= b < n && !(a == i && b == j) && !(a == j && b == i)
    ensures Elem(mem', Slot(0, n * es, es, a, b), es) == Elem(mem, Slot(0, n * es, es, a, b), es)
    ensures Swapped(a, b, i, j + 1) == Swapped(a, b, i, j)
  {
    SlotsApart(es, n, a, b, i, j);
    SlotsApart(es, n, a, b, j, i);
    SlotInTotal(es, n, n, a, b);
    ElemSame(mem, mem', Slot(0, n * es, es, a, b), es);
  }

  lemma ElemFrom(mem: seq<Byte>, mem': seq<Byte>, p: int, q: int, es: nat)
    requires |mem'| == |mem| && 0 <= p && p + es <= |mem| && 0 <= q && q + es <= |mem|
    requires mem'[p..p + es] == mem[q..q + es]
    ensures Elem(mem', p, es) == Elem(mem, q, es)
  {
    forall b | 0 <= b < es
      ensures Elem(mem', p, es)[b] == Elem(mem, q, es)[b]
    {
      assert mem'[p..p + es][b] == mem[q..q + es][b];
      assert Peek(mem', p + b) == mem'[p + b] && Peek(mem, q + b) == mem[q + b];
    }
  }

  /** Transpose a square matrix by swapping across the diagonal. */
  method SwapTranspose(data: array<Byte>, n: int, es: nat)
    requires 1 <= n && 1 <= es && TotalBytes(n, n, es) <= data.Length
    modifies data
    ensures Region(es, old(data[..]), data[..], n, n, 0, n, 0, n)
    ensures forall k :: TotalBytes(n, n, es) <= k < data.Length ==> data[k] == old(data[k])
  {
    ghost var before := data[..];
    var i := 0;
    while i < n
      invariant 0 <= i <= n
      invariant HalfSwapped(es, before, data[..], n, i, i + 1)
    {
      var j := i + 1;
      while j < n
        invariant i < j <= n
        invariant HalfSwapped(es, before, data[..], n, i, j)
      {
        SlotInTotal(es, n, n, i, j);
        SlotInTotal(es, n, n, j, i);
        SlotsApart(es, n, i, j, j, i);
        ghost var mem := data[..];
        SwapElements(data, Slot(0, n * es, es, i, j), Slot(0, n * es, es, j, i), es);
        SwapStep(es, before, mem, data[..], n, i, j);
        j := j + 1;
      }
      RowSwapped(es, before, data[..], n, i);
      i := i + 1;
    }
    AllSwapped(es, before, data[..], n);
    TotalPositive(n, n, es);
    forall k | TotalBytes(n, n, es) <= k < data.Length
      ensures data[k] == before[k]
    {
      assert Peek(data[..], k) == Peek(before, k);
    }
  }

  lemma RowSwapped(es: nat, before: seq<Byte>, mem: seq<Byte>, n: int, i: int)
    requires 0 <= i < n && HalfSwapped(es, before, mem, n, i, n)
    ensures HalfSwapped(es, before, mem, n, i + 1, i + 2)
  {
    forall a, b | 0 <= a < n && 0 <= b < n
      ensures Elem(mem, Slot(0, n * es, es, a, b), es) == Expected(es, before, n, i + 1, i + 2, a, b)
    {
      assert a != b ==> Swapped(a, b, i + 1, i + 2) == Swapped(a, b, i, n);
    }
  }

  lemma AllSwapped(es: nat, before: seq<Byte>, mem: seq<Byte>, n: int)
    requires HalfSwapped(es, before, mem, n, n, n + 1)
    ensures Region(es, before, mem, n, n, 0, n, 0, n)
  {
    forall c, r | 0 <= c < n && 0 <= r < n
      ensures Elem(mem, Slot(0, n * es, es, c, r), es) == Elem(before, Slot(0, n * es, es, r, c), es)
    {
      assert Swapped(c, r, n, n + 1);
    }
  }

  // ----- All paths -----

  /** Transpose a matrix in its own buffer: swaps when square, a temporary otherwise. */
  method TransposeInPlace(data: array<Byte>, row: int, col: int, es: nat)
    requires row > 0 && col > 0 && es > 0 ==> TotalBytes(row, col, es) <= data.Length
    modifies data
    ensures row > 0 && col > 0 && es > 0 ==>
              && Region(es, old(data[..]), data[..], row, col, 0, col, 0, row)
              && forall k :: TotalBytes(row, col, es) <= k < data.Length ==> data[k] == old(data[k])
    ensures !(row > 0 && col > 0 && es > 0) ==> data[..] == old(data[..])
  {
    if row <= 0 || col <= 0 || es == 0 {
      return;
    }
    if row == col {
      SwapTranspose(data, row, es);
    } else {
      TransposeThroughBuffer(data, row, col, es);
    }
  }

  method TransposeThroughBuffer(data: array<Byte>, row: int, col: int, es: nat)
    requires row > 0 && col > 0 && es > 0 && TotalBytes(row, col, es) <= data.Length
    modifies data
    ensures Region(es, old(data[..]), data[..], row, col, 0, col, 0, row)
    ensures forall k :: TotalBytes(row, col, es) <= k < data.Length ==> data[k] == old(data[k])
  {
    var total := TotalBytes(row, col, es);
    TotalPositive(row, col, es);
    var temp := new Byte[total];
    TotalFits(es, row, col, data.Length, temp.Length);
    ghost var before := data[..];
    ScalarRegion(es, data, temp, row, col, 0, col, 0, row);
    assert data[..] == before;
    CopyBack(data, temp, total);
    assert forall k :: 0 <= k < total ==> Peek(data[..], k) == Peek(temp[..], k);
    RegionPrefix(es, before, before, temp[..], data[..], row, col);
  }

  /** Copy the first `n` bytes of `temp` over `data`. */
  method CopyBack(data: array<Byte>, temp: array<Byte>, n: nat)
    requires data != temp && n <= data.Length && n <= temp.Length
    modifies data
    ensures forall k :: 0 <= k < data.Length ==> data[k] == if k < n then temp[k] else old(data[k])
  {
    forall k | 0 <= k < n {
      data[k] := temp[k];
    }
  }

  lemma TotalPositive(row: int, col: int, es: int)
    requires row > 0 && col > 0 && es > 0
    ensures TotalBytes(row, col, es) > 0
  {
    assert row * col > 0;
  }

  /** The bytes past the matrix are not part of its region. */
  lemma RegionTail(es: nat, before: seq<Byte>, after: seq<Byte>, rows: int, cols: int)
    requires 1 <= es && 1 <= rows && 1 <= cols && OnlyRegion(es, before, after, rows, 0, 0, cols, rows)
    ensures forall k :: TotalBytes(rows, cols, es) <= k < |before| ==> after[k] == before[k]
  {
    forall k | TotalBytes(rows, cols, es) <= k < |before|
      ensures after[k] == before[k]
    {
      TotalForms(rows, cols, es);
      TailOutside(k, rows * es, cols);
      assert Slot(0, rows * es, es, 0, 0) == 0;
      TotalPositive(rows, cols, es);
    }
  }

  lemma TailOutside(k: int, stride: int, rows: int)
    requires k >= rows * stride && stride >= 0
    ensures !InBlock(k, 0, stride, rows, stride)
  {
    forall c, r | 0 <= c < rows && 0 <= r < stride
      ensures k != Cell(0, stride, c, r)
    {
      CellBound(stride, rows, c, r);
    }
  }

  /** Transpose `src` into `dst`, which may be the same buffer, with or without the
      accelerated kernels.  Every path leaves the same bytes; invalid sizes change nothing. */
  method BidirectionalTranspose(src: array<Byte>, dst: array<Byte>, row: int, col: int, es: nat, accel: bool, junk: int -> Byte)
    requires row > 0 && col > 0 && es > 0 ==> TotalBytes(row, col, es) <= src.Length && TotalBytes(row, col, es) <= dst.Length
    modifies dst
    ensures row > 0 && col > 0 && es > 0 ==>
              && Region(es, old(src[..]), dst[..], row, col, 0, col, 0, row)
              && forall k :: TotalBytes(row, col, es) <= k < dst.Length ==> dst[k] == old(dst[k])
    ensures !(row > 0 && col > 0 && es > 0) ==> dst[..] == old(dst[..])
  {
    if row <= 0 || col <= 0 || es == 0 {
      return;
    }
    if accel && (es == 1 || es == 4) {
      NeonTranspose(src, dst, row, col, es, junk);
      return;
    }
    if src == dst {
      TransposeInPlace(src, row, col, es);
      return;
    }
    TotalFits(es, row, col, src.Length, dst.Length);
    ghost var before := dst[..];
    ScalarRegion(es, src, dst, row, col, 0, col, 0, row);
    RegionTail(es, before, dst[..], row, col);
  }

  /** The accelerated path; in place it works from a copy. */
  method NeonTranspose(src: array<Byte>, dst: array<Byte>, row: int, col: int, es: nat, junk: int -> Byte)
    requires row > 0 && col > 0 && (es == 1 || es == 4)
    requires TotalBytes(row, col, es) <= src.Length && TotalBytes(row, col, es) <= dst.Length
    modifies dst
    ensures Region(es, old(src[..]), dst[..], row, col, 0, col, 0, row)
    ensures forall k :: TotalBytes(row, col, es) <= k < dst.Length ==> dst[k] == old(dst[k])
  {
    ghost var before, inp := dst[..], src[..];
    if src == dst {
      var total := TotalBytes(row, col, es);
      TotalPositive(row, col, es);
      var temp := new Byte[total];
      forall k | 0 <= k < total {
        temp[k] := src[k];
      }
      TotalFits(es, row, col, temp.Length, dst.Length);
      ghost var copy := temp[..];
      ghost var _ := Transpose(es, temp, junk, dst, row, col);
      assert temp[..] == copy;
      RegionPrefix(es, copy, inp, dst[..], dst[..], row, col);
    } else {
      TotalFits(es, row, col, src.Length, dst.Length);
      ghost var _ := Transpose(es, src, junk, dst, row, col);
      assert src[..] == inp;
    }
    RegionTail(es, before, dst[..], row, col);
  }
}
