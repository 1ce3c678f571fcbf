/**
 The block map of the device-memory allocator, as values.

 The allocator keeps an ordered map from addresses to blocks.  Here the map is the
 sequence of its blocks in key order; `Put` and `Erase` are the map's insert-or-assign
 and erase, and an iterator is an index.
 */
module MemoryPool {

  /** Sizes and addresses are 64-bit unsigned in the program. */
  const WORD_MODULUS: nat := 0x1_0000_0000_0000_0000
  const MEMORY_ALIGNMENT: nat := 4096
  const LARGE_ALLOCATION_THRESHOLD: nat := 100 * 1024 * 1024
  const MEDIUM_FRAGMENTATION_THRESHOLD: real := 0.5

  /** status 0 is available; anything else is in use. */
  datatype Node = Node(addr: nat, size: nat, status: nat) {
    predicate Free() {
      status == 0
    }

    function Limit(): nat {
      addr + size
    }
  }

  type Pool = seq<Node>

  // ----- The ordered map -----

  /** Insert-or-assign at key `n.addr`. */
  function Put(p: Pool, n: Node): Pool {
    if p == [] || n.addr < p[0].addr then [n] + p
    else if n.addr == p[0].addr then [n] + p[1..]
    else [p[0]] + Put(p[1..], n)
  }

  /** Erase the entry at key `a`, if there is one. */
  function Erase(p: Pool, a: nat): Pool {
    if p == [] then []
    else if p[0].addr == a then p[1..]
    else [p[0]] + Erase(p[1..], a)
  }

  ghost predicate Sorted(p: Pool) {
    forall i, j :: 0 <= i < j < |p| ==> p[i].addr < p[j].addr
  }

  lemma {:induction false} PutReplaces(p: Pool, i: nat, n: Node)
    requires Sorted(p) && i < |p| && p[i].addr == n.addr
    ensures Put(p, n) == p[i := n]
  {
    if i > 0 {
      PutReplaces(p[1..], i - 1, n);
    }
  }

  lemma ConsSlices(p: Pool, i: nat)
    requires 0 < i <= |p|
    ensures p[..i] == [p[0]] + p[1..][..i - 1] && p[i..] == p[1..][i - 1..]
  {
  }

  lemma ConsJoin(x: Node, a: Pool, b: Pool)
    ensures [x] + (a + b) == ([x] + a) + b
  {
  }

  lemma SortedTail(p: Pool)
    requires Sorted(p) && p != []
    ensures Sorted(p[1..])
  {
  }

  lemma {:induction false} PutInserts(p: Pool, i: nat, n: Node)
    requires Sorted(p) && i <= |p|
    requires i > 0 ==> p[i - 1].addr < n.addr
    requires i < |p| ==> n.addr < p[i].addr
    ensures Put(p, n) == p[..i] + [n] + p[i..]
  {
    if i > 0 {
      var t := p[1..];
      assert p[0].addr < n.addr;
      SortedTail(p);
      PutInserts(t, i - 1, n);
      ConsSlices(p, i);
      ConsJoin(p[0], t[..i - 1] + [n], t[i - 1..]);
      ConsJoin(p[0], t[..i - 1], [n]);
    }
  }

  lemma {:induction false} PutHas(p: Pool, n: Node)
    ensures n in Put(p, n)
  {
    if p != [] && p[0].addr < n.addr {
      PutHas(p[1..], n);
    }
  }

  lemma {:induction false} EraseRemoves(p: Pool, i: nat)
    requires Sorted(p) && i < |p|
    ensures Erase(p, p[i].addr) == p[..i] + p[i + 1..]
  {
    if i > 0 {
      var t := p[1..];
      assert p[0].addr < p[i].addr;
      assert t[i - 1] == p[i];
      SortedTail(p);
      EraseRemoves(t, i - 1);
      ConsSlices(p, i);
      ConsSlices(p, i + 1);
      ConsJoin(p[0], t[..i - 1], t[i..]);
    }
  }

  // ----- Tilings -----

  /** The address at which entry `i` starts; past the last entry, the end of the range. */
  function Bound(p: Pool, i: nat, hi: nat): nat {
    if i < |p| then p[i].addr else hi
  }

  /** The blocks are non-empty and cover [lo, hi) exactly, without gap or overlap. */
  ghost predicate Tiled(p: Pool, lo: nat, hi: nat) {
    if p == [] then lo == hi
    else p[0].addr == lo && p[0].size > 0 && Tiled(p[1..], p[0].Limit(), hi)
  }

  /** No two neighbouring blocks are both free. */
  ghost predicate Coalesced(p: Pool) {
    forall i, j :: 0 <= i < |p| && 0 <= j < |p| && j == i + 1 ==> !(p[i].Free() && p[j].Free())
  }

  /** Any cut of a tiling gives two tilings that meet at the cut. */
  lemma {:induction false} TiledSplit(p: Pool, i: nat, lo: nat, hi: nat)
    requires Tiled(p, lo, hi) && i <= |p|
    ensures Tiled(p[..i], lo, Bound(p, i, hi)) && Tiled(p[i..], Bound(p, i, hi), hi)
    ensures lo <= Bound(p, i, hi) <= hi
    ensures i > 0 ==> lo < Bound(p, i, hi) && p[0].Limit() <= Bound(p, i, hi)
  {
    if p == [] {
    } else if i == 0 {
      TiledSplit(p[1..], 0, p[0].Limit(), hi);
      assert p[0..] == p;
    } else {
      TiledSplit(p[1..], i - 1, p[0].Limit(), hi);
      assert p[..i][1..] == p[1..][..i - 1];
      assert p[i..] == p[1..][i - 1..];
      assert Bound(p, i, hi) == Bound(p[1..], i - 1, hi);
    }
  }

  lemma {:induction false} TiledJoin(a: Pool, b: Pool, lo: nat, mid: nat, hi: nat)
    requires Tiled(a, lo, mid) && Tiled(b, mid, hi)
    ensures Tiled(a + b, lo, hi)
  {
    if a == [] {
      assert a + b == b;
    } else {
      assert (a + b)[1..] == a[1..] + b;
      TiledJoin(a[1..], b, a[0].Limit(), mid, hi);
    }
  }

  lemma TiledOrder(p: Pool, lo: nat, hi: nat, i: nat, j: nat)
    requires Tiled(p, lo, hi) && i <= j <= |p|
    ensures lo <= Bound(p, i, hi) <= Bound(p, j, hi) <= hi
    ensures i < j ==> p[i].addr < p[i].Limit() <= Bound(p, j, hi)
  {
    TiledSplit(p, i, lo, hi);
    TiledSplit(p[i..], j - i, Bound(p, i, hi), hi);
    assert Bound(p[i..], j - i, hi) == Bound(p, j, hi);
  }

  /** A block ends where the next one starts. */
  lemma TiledNext(p: Pool, lo: nat, hi: nat, i: nat)
    requires Tiled(p, lo, hi) && i < |p|
    ensures p[i].size > 0 && p[i].Limit() == Bound(p, i + 1, hi)
  {
    TiledSplit(p, i, lo, hi);
    if i + 1 < |p| {
      assert p[i..][1..] == p[i + 1..] && p[i..][1..][0] == p[i + 1];
    } else {
      assert p[i..][1..] == [];
    }
  }

  lemma TiledSorted(p: Pool, lo: nat, hi: nat)
    requires Tiled(p, lo, hi)
    ensures Sorted(p)
  {
    forall i, j | 0 <= i < j < |p|
      ensures p[i].addr < p[j].addr
    {
      TiledOrder(p, lo, hi, i, j);
    }
  }

  /** Replacing one block by a tiling of its range keeps the whole tiled. */
  lemma TiledSplice(p: Pool, i: nat, q: Pool, lo: nat, hi: nat)
    requires Tiled(p, lo, hi) && i < |p| && Tiled(q, p[i].addr, p[i].Limit())
    ensures Tiled(p[..i] + q + p[i + 1..], lo, hi)
  {
    TiledSplit(p, i, lo, hi);
    TiledSplit(p, i + 1, lo, hi);
    TiledNext(p, lo, hi, i);
    TiledJoin(p[..i], q, lo, p[i].addr, p[i].Limit());
    TiledJoin(p[..i] + q, p[i + 1..], lo, p[i].Limit(), hi);
  }

  // ----- Live blocks and the canonical pool -----

  /** The blocks in use, in address order. */
  function Live(p: Pool): Pool {
    if p == [] then []
    else if p[0].Free() then Live(p[1..])
    else [p[0]] + Live(p[1..])
  }

  function TotalSize(p: Pool): nat {
    if p == [] then 0 else p[0].size + TotalSize(p[1..])
  }

  lemma {:induction false} LiveJoin(a: Pool, b: Pool)
    ensures Live(a + b) == Live(a) + Live(b)
  {
    if a == [] {
      assert a + b == b;
    } else {
      assert (a + b)[1..] == a[1..] + b;
      LiveJoin(a[1..], b);
    }
  }

  lemma {:induction false} TotalJoin(a: Pool, b: Pool)
    ensures TotalSize(a + b) == TotalSize(a) + TotalSize(b)
  {
    if a == [] {
      assert a + b == b;
    } else {
      assert (a + b)[1..] == a[1..] + b;
      TotalJoin(a[1..], b);
    }
  }

  lemma {:induction false} LiveMember(p: Pool, n: Node)
    ensures n in Live(p) <==> n in p && !n.Free()
  {
    if p != [] {
      LiveMember(p[1..], n);
      assert p == [p[0]] + p[1..];
    }
  }

  /** The live blocks of a tiling take no more room than the range offers. */
  lemma {:induction false} LiveFits(p: Pool, lo: nat, hi: nat)
    requires Tiled(p, lo, hi)
    ensures lo <= hi && TotalSize(Live(p)) <= hi - lo
  {
    if p != [] {
      LiveFits(p[1..], p[0].Limit(), hi);
    }
  }

  /** The free block that fills [lo, hi), or nothing when the range is empty. */
  function Gap(lo: nat, hi: nat): Pool {
    if lo < hi then [Node(lo, hi - lo, 0)] else []
  }

  /** The block map in which the given live blocks are separated by single free blocks. */
  function Canon(live: Pool, lo: nat, hi: nat): Pool {
    if live == [] then Gap(lo, hi)
    else Gap(lo, live[0].addr) + [live[0]] + Canon(live[1..], live[0].Limit(), hi)
  }

  /** A tiled map without free neighbours is determined by its live blocks. */
  lemma {:induction false} CanonicalPool(p: Pool, lo: nat, hi: nat)
    requires Tiled(p, lo, hi) && Coalesced(p)
    ensures p == Canon(Live(p), lo, hi)
  {
    if p == [] {
    } else if !p[0].Free() {
      CanonicalPool(p[1..], p[0].Limit(), hi);
    } else if |p| == 1 {
      assert Live(p) == [];
    } else {
      assert p[1..][0] == p[1];
      CanonicalPool(p[2..], p[1].Limit(), hi);
      assert p[1..][1..] == p[2..];
      assert Live(p) == [p[1]] + Live(p[2..]);
      assert p == [p[0]] + [p[1]] + p[2..];
    }
  }

  /** Byte `b` belongs to a block in use. */
  ghost predicate BusyByte(p: Pool, b: nat) {
    exists n :: n in p && !n.Free() && n.addr <= b < n.Limit()
  }

  /** The use of every byte is determined by the live blocks. */
  lemma LiveDecidesBytes(p: Pool, q: Pool, b: nat)
    requires Live(p) == Live(q)
    ensures BusyByte(p, b) <==> BusyByte(q, b)
  {
    forall n: Node
      ensures n in p && !n.Free() <==> n in q && !n.Free()
    {
      LiveMember(p, n);
      LiveMember(q, n);
    }
  }

  /** Blocks of a tiling never overlap. */
  lemma TilesDisjoint(p: Pool, lo: nat, hi: nat, i: nat, j: nat)
    requires Tiled(p, lo, hi) && i < |p| && j < |p| && i != j
    ensures p[i].Limit() <= p[j].addr || p[j].Limit() <= p[i].addr
    ensures lo <= p[i].addr && p[i].Limit() <= hi
  {
    TiledNext(p, lo, hi, i);
    TiledOrder(p, lo, hi, i, i + 1);
    if i < j {
      TiledOrder(p, lo, hi, i, j);
    } else {
      TiledOrder(p, lo, hi, j, i);
    }
  }
}
