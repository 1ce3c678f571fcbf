/**
 The device-memory allocator as a mutable object.
 */
module DeviceMemory {
  import opened MemoryPool
  import opened MemorySteps

  datatype FragmentationInfo = FragmentationInfo(
    totalFree: nat, largestFree: nat, smallestFree: nat, freeBlocks: nat, ratio: real)

  /** The free blocks, in address order. */
  function FreeBlocks(p: Pool): Pool {
    if p == [] then []
    else if p[0].Free() then [p[0]] + FreeBlocks(p[1..])
    else FreeBlocks(p[1..])
  }

  lemma {:induction false} FreeBlocksStep(p: Pool, i: nat)
    requires i < |p|
    ensures FreeBlocks(p[..i + 1]) == FreeBlocks(p[..i]) + (if p[i].Free() then [p[i]] else [])
  {
    if i == 0 {
      assert p[..1] == [p[0]] && p[..1][1..] == [] && p[..0] == [];
    } else {
      FreeBlocksStep(p[1..], i - 1);
      assert p[..i + 1][1..] == p[1..][..i] && p[..i][1..] == p[1..][..i - 1];
    }
  }

  lemma FreeTotalsStep(p: Pool, i: nat)
    requires i < |p|
    ensures var now, next := FreeBlocks(p[..i]), FreeBlocks(p[..i + 1]);
            && TotalSize(next) == TotalSize(now) + (if p[i].Free() then p[i].size else 0)
            && |next| == |now| + (if p[i].Free() then 1 else 0)
  {
    var now := FreeBlocks(p[..i]);
    FreeBlocksStep(p, i);
    TotalJoin(now, [p[i]]);
    LiveOne(p[i]);
    assert now + [] == now;
  }

  /** Every byte is either in a free block or in a live one. */
  lemma {:induction false} FreePlusLive(p: Pool, lo: nat, hi: nat)
    requires Tiled(p, lo, hi)
    ensures TotalSize(FreeBlocks(p)) + TotalSize(Live(p)) == hi - lo
  {
    if p != [] {
      FreePlusLive(p[1..], p[0].Limit(), hi);
      assert ([p[0]] + FreeBlocks(p[1..]))[1..] == FreeBlocks(p[1..]);
      assert ([p[0]] + Live(p[1..]))[1..] == Live(p[1..]);
    }
  }

  /** Every block is free or live. */
  lemma {:induction false} FreeOrLive(p: Pool)
    ensures |FreeBlocks(p)| + |Live(p)| == |p|
  {
    if p != [] {
      FreeOrLive(p[1..]);
    }
  }

  /** Size of the largest free block, 0 if there is none. */
  function LargestFree(p: Pool): nat {
    if p == [] then 0
    else
      var last := |p| - 1;
      var before := LargestFree(p[..last]);
      if p[last].Free() && p[last].size > before then p[last].size else before
  }

  /** Something fits exactly when the largest free block does, so a request that found no
      block is never helped by a defragmentation that changes nothing. */
  lemma {:induction false} LargestDecides(p: Pool, required: nat)
    requires required > 0
    ensures NoFit(p, required) <==> LargestFree(p) < required
  {
    if p != [] {
      var last := |p| - 1;
      LargestDecides(p[..last], required);
      assert NoFit(p, required) <==> NoFit(p[..last], required) && !Fits(p[last], required) by {
        if NoFit(p[..last], required) && !Fits(p[last], required) {
          forall i | 0 <= i < |p|
            ensures !Fits(p[i], required)
          {
            assert i < last ==> p[..last][i] == p[i];
          }
        }
      }
    }
  }

  class Memory {
    const size: nat
    var pool: Pool
    var used: nat

    ghost function View(): State
      reads this
    {
      State(pool, used)
    }

    ghost predicate Inv()
      reads this
    {
      Valid(View(), size)
    }

    constructor (memSize: nat)
      requires memSize < WORD_MODULUS
      ensures size == memSize && View() == Initial(memSize)
      ensures Inv() <==> 0 < memSize < WORD_MODULUS - 1
    {
      size := memSize;
      pool := [Node(0, memSize, 0)];
      used := 0;
      new;
      if 0 < memSize < WORD_MODULUS - 1 {
        InitialValid(memSize);
      }
    }

    /** Smallest free block of at least `required` bytes, lowest address first. */
    method FindBestFit(required: nat) returns (best: int)
      requires forall n :: n in pool ==> n.size < WORD_MODULUS - 1
      ensures best == -1 ==> NoFit(pool, required)
      ensures best != -1 ==> 0 <= best && FirstBestFit(pool, required, best)
    {
      best := -1;
      var bestSize := WORD_MODULUS - 1;
      for i := 0 to |pool|
        invariant -1 <= best < i
        invariant best == -1 ==> bestSize == WORD_MODULUS - 1 && NoFit(pool[..i], required)
        invariant best != -1 ==> bestSize == pool[best].size && FirstBestFit(pool[..i], required, best)
      {
        var node := pool[i];
        if node.Free() && node.size >= required && node.size < bestSize {
          bestSize := node.size;
          best := i;
        }
      }
      assert pool[..|pool|] == pool;
    }

    /** Smallest free block of at least `required` bytes, highest address first. */
    method FindBestFitBackward(required: nat) returns (best: int)
      requires forall n :: n in pool ==> n.size < WORD_MODULUS - 1
      ensures best == -1 ==> NoFit(pool, required)
      ensures best != -1 ==> 0 <= best && LastBestFit(pool, required, best)
    {
      best := -1;
      var bestSize := WORD_MODULUS - 1;
      for i := |pool| downto 0
        invariant best == -1 || i <= best < |pool|
        invariant best == -1 ==> bestSize == WORD_MODULUS - 1
                                 && forall j :: i <= j < |pool| ==> !Fits(pool[j], required)
        invariant best != -1 ==>
                    && bestSize == pool[best].size && Fits(pool[best], required)
                    && forall j :: i <= j < |pool| && Fits(pool[j], required) ==>
                                     pool[best].size < pool[j].size || (pool[best].size == pool[j].size && j <= best)
      {
        var node := pool[i];
        if node.Free() && node.size >= required && node.size < bestSize {
          bestSize := node.size;
          best := i;
        }
      }
    }

    lemma SizesBounded()
      requires Inv()
      ensures forall n :: n in pool ==> 0 < n.size < WORD_MODULUS - 1
    {
      forall n | n in pool
        ensures 0 < n.size < WORD_MODULUS - 1
      {
        var i :| 0 <= i < |pool| && pool[i] == n;
        TiledOrder(pool, 0, size, i, i + 1);
      }
    }

    /** Reserve the first bytes of the best-fitting block.  The result is the address, or -1
        exactly when no free block holds the aligned size; the defragmentation attempt in
        between never changes the outcome. */
    method Allocate(bytes: nat) returns (result: int)
      requires Inv() && bytes < WORD_MODULUS
      modifies this
      ensures AllocateStep(old(View()), bytes, View(), result)
      ensures Inv() <==> bytes <= WORD_MODULUS - MEMORY_ALIGNMENT || !SomeFree(old(pool))
      ensures result == -1 <==> NoFit(old(pool), ForwardSize(bytes))
      ensures forall need: nat :: bytes <= WORD_MODULUS - MEMORY_ALIGNMENT && SetAside(bytes, need) ==>
                (result == -1 <==> AllSmaller(old(pool), need))
    {
      var required := bytes;
      if required == 0 {
        required := 64;
      }
      required := AlignSize(required);
      SizesBounded();
      var best := FindBestFit(required);
      if best == -1 && required >= LARGE_ALLOCATION_THRESHOLD {
        var info := GetFragmentationInfo();
        if info.ratio > MEDIUM_FRAGMENTATION_THRESHOLD {
          var enough := TryDefragmentation(required);
          if enough {
            best := FindBestFit(required);
          }
        }
      }
      assert View() == old(View());
      if best != -1 {
        result := TakeFront(best, required);
        assert TakesFront(old(View()), required, best, View(), result);
      } else {
        result := -1;
      }
      AllocateKeeps(old(View()), bytes, View(), result, size);
    }

    /** Split entry `best` and mark its first `required` bytes busy. */
    method TakeFront(best: nat, required: nat) returns (addr: nat)
      requires best < |pool| && required <= pool[best].size
      modifies this
      ensures pool == CarveFront(old(pool), best, required)
      ensures used == (old(used) + required) % WORD_MODULUS
      ensures addr == old(pool)[best].addr
    {
      var node := pool[best];
      addr := node.addr;
      if required < node.size {
        pool := Put(pool, Node(addr + required, node.size - required, 0));
      }
      pool := Put(pool, Node(addr, required, 1));
      used := (used + required) % WORD_MODULUS;
    }

    /** Reserve the last bytes of the best-fitting block.  A request for zero bytes breaks the
        block map whenever a free block exists. */
    method BackwardAllocate(bytes: nat) returns (result: int)
      requires Inv() && bytes < WORD_MODULUS
      modifies this
      ensures BackwardStep(old(View()), bytes, View(), result)
      ensures Inv() <==> 0 < bytes <= WORD_MODULUS - MEMORY_ALIGNMENT || !SomeFree(old(pool))
      ensures result == -1 <==> NoFit(old(pool), AlignSize(bytes))
      ensures forall need: nat :: 0 < bytes <= WORD_MODULUS - MEMORY_ALIGNMENT && SetAside(bytes, need) ==>
                (result == -1 <==> AllSmaller(old(pool), need))
    {
      var required := AlignSize(bytes);
      SizesBounded();
      var best := FindBestFitBackward(required);
      if best == -1 && required >= LARGE_ALLOCATION_THRESHOLD {
        var info := GetFragmentationInfo();
        if info.ratio > MEDIUM_FRAGMENTATION_THRESHOLD {
          var enough := TryDefragmentation(required);
          if enough {
            best := FindBestFitBackward(required);
          }
        }
      }
      assert View() == old(View());
      if best != -1 {
        result := TakeBack(best, required);
        assert TakesBack(old(View()), required, best, View(), result);
      } else {
        result := -1;
      }
      BackwardKeeps(old(View()), bytes, View(), result, size);
    }

    /** Split entry `best` and mark its last `required` bytes busy. */
    method TakeBack(best: nat, required: nat) returns (addr: nat)
      requires best < |pool| && required <= pool[best].size
      modifies this
      ensures pool == CarveBack(old(pool), best, required)
      ensures used == (old(used) + required) % WORD_MODULUS
      ensures addr == old(pool)[best].Limit() - required
    {
      var node := pool[best];
      addr := node.addr;
      if required < node.size {
        var remain := node.size - required;
        pool := Put(pool, Node(addr, remain, 0));
        addr := addr + remain;
      }
      pool := Put(pool, Node(addr, required, 1));
      used := (used + required) % WORD_MODULUS;
    }

    /** Entry with key `addr`, or -1. */
    method Find(addr: nat) returns (i: int)
      ensures i == -1 ==> !Keyed(pool, addr)
      ensures i != -1 ==> 0 <= i < |pool| && pool[i].addr == addr && Keyed(pool, addr)
    {
      i := -1;
      for k := 0 to |pool|
        invariant i == -1 && forall j :: 0 <= j < k ==> pool[j].addr != addr
      {
        if pool[k].addr == addr {
          i := k;
          assert pool[k] in pool;
          return;
        }
      }
    }

    /** Give a block back and merge it with its free neighbours. */
    method Deallocate(addr: nat)
      requires Inv()
      modifies this
      ensures DeallocateStep(old(View()), addr, View(), size)
      ensures Inv() <==> forall n :: n in old(pool) && n.addr == addr ==> !n.Free()
    {
      var i := Find(addr);
      if i != -1 {
        ReleaseAt(i);
      }
      DeallocateKeeps(old(View()), addr, View(), size);
    }

    /** Mark entry `i` free and merge it with its free neighbours. */
    method ReleaseAt(i: nat)
      requires Tiled(pool, 0, size) && Coalesced(pool) && i < |pool|
      modifies this
      ensures Releases(old(View()), i, View(), size)
    {
      used := (used - pool[i].size) % WORD_MODULUS;
      FreedFacts(pool, i, size);
      pool := pool[i := pool[i].(status := 0)];
      MergeAdjacentNodes(i);
    }

    /** No two neighbours are free, except possibly around entry `i`. */
    ghost predicate CoalescedAround(i: nat)
      reads this
    {
      forall j, k :: 0 <= j < |pool| && 0 <= k < |pool| && k == j + 1 && j != i && k != i ==>
                       !(pool[j].Free() && pool[k].Free())
    }

    /** Merge the free entry `i` with free neighbours until it has none. */
    method MergeAdjacentNodes(i: nat)
      requires Tiled(pool, 0, size) && i < |pool| && pool[i].Free() && CoalescedAround(i)
      modifies this
      ensures used == old(used)
      ensures Tiled(pool, 0, size) && Coalesced(pool) && Live(pool) == old(Live(pool))
      decreases |pool|
    {
      if i > 0 {
        var prev := pool[i - 1];
        if prev.Free() {
          MergePair(i - 1);
          MergeAdjacentNodes(i - 1);
          return;
        }
      }
      if i + 1 < |pool| && pool[i + 1].Free() {
        MergePair(i);
        MergeAdjacentNodes(i);
      }
    }

    /** Erase two neighbouring free entries and insert their union. */
    method MergePair(i: nat)
      requires Tiled(pool, 0, size) && i + 1 < |pool| && pool[i].Free() && pool[i + 1].Free()
      modifies this
      ensures used == old(used)
      ensures pool == old(pool)[..i] + [Node(old(pool)[i].addr, old(pool)[i].size + old(pool)[i + 1].size, 0)]
                      + old(pool)[i + 2..]
      ensures Tiled(pool, 0, size) && Live(pool) == old(Live(pool))
    {
      var newAddr := pool[i].addr;
      var newSize := pool[i].size + pool[i + 1].size;
      ghost var p := pool;
      PairFacts(p, i, size);
      pool := Erase(pool, pool[i].addr);
      pool := Erase(pool, pool[i].addr);
      pool := Put(pool, Node(newAddr, newSize, 0));
    }

    /** Restart-until-stable merging of every pair of adjacent free blocks, from any tiled
        pool. */
    method MergeAllAdjacentFreeBlocks()
      requires Tiled(pool, 0, size)
      modifies this
      ensures used == old(used)
      ensures Tiled(pool, 0, size) && Coalesced(pool) && Live(pool) == old(Live(pool))
      ensures forall b: nat :: BusyByte(pool, b) <==> BusyByte(old(pool), b)
    {
      var merged := true;
      while merged
        invariant used == old(used)
        invariant Tiled(pool, 0, size) && Live(pool) == old(Live(pool))
        invariant !merged ==> Coalesced(pool)
        decreases |pool| + (if merged then 1 else 0)
      {
        merged := false;
        ghost var p := pool;
        var i := 0;
        while i < |pool|
          invariant 0 <= i <= |pool| && pool == p && !merged && used == old(used)
          invariant forall j, k :: 0 <= j < i && 0 <= k < |pool| && k == j + 1 ==>
                                     !(pool[j].Free() && pool[k].Free())
          decreases |pool| - i
        {
          if pool[i].Free() && i + 1 < |pool| && pool[i + 1].Free()
             && pool[i].addr + pool[i].size == pool[i + 1].addr {
            MergePair(i);
            merged := true;
            break;
          }
          if i + 1 < |pool| {
            TiledNext(pool, 0, size, i);
          }
          i := i + 1;
        }
      }
      forall b: nat
        ensures BusyByte(pool, b) <==> BusyByte(old(pool), b)
      {
        LiveDecidesBytes(pool, old(pool), b);
      }
    }

    /** Merging on a reachable memory changes nothing, so this only re-checks the largest
        free block. */
    method TryDefragmentation(required: nat) returns (enough: bool)
      requires Inv()
      modifies this
      ensures View() == old(View())
      ensures enough <==> LargestFree(pool) >= required
    {
      MergeAllAdjacentFreeBlocks();
      MergeIsIdentity(old(View()), pool, size);
      var largest := GetLargestFreeBlock();
      enough := largest >= required;
    }

    method GetLargestFreeBlock() returns (largest: nat)
      ensures largest == LargestFree(pool)
    {
      largest := 0;
      for i := 0 to |pool|
        invariant largest == LargestFree(pool[..i])
      {
        assert pool[..i + 1][..i] == pool[..i];
        var node := pool[i];
        if node.Free() && node.size > largest {
          largest := node.size;
        }
      }
      assert pool[..|pool|] == pool;
    }

    /** The accumulation loop over the free blocks. */
    method ScanFreeBlocks() returns (total: nat, largest: nat, smallest: nat, count: nat)
      requires forall n :: n in pool ==> 0 < n.size < WORD_MODULUS - 1
      ensures total == TotalSize(FreeBlocks(pool)) && count == |FreeBlocks(pool)| && largest <= total
      ensures forall n :: n in pool && n.Free() ==> smallest <= n.size <= largest
      ensures count == 0 ==> total == 0
      ensures count > 0 ==>
                && (exists n :: n in pool && n.Free() && n.size == largest > 0)
                && (exists n :: n in pool && n.Free() && n.size == smallest)
    {
      total, largest, smallest, count := 0, 0, WORD_MODULUS - 1, 0;
      ghost var large, small := 0, 0;
      for i := 0 to |pool|
        invariant total == TotalSize(FreeBlocks(pool[..i])) && count == |FreeBlocks(pool[..i])|
        invariant forall j :: 0 <= j < i && pool[j].Free() ==> smallest <= pool[j].size <= largest
        invariant count == 0 ==> total == 0 && largest == 0 && smallest == WORD_MODULUS - 1
        invariant count > 0 ==>
                    && 0 <= large < i && pool[large].Free() && pool[large].size == largest > 0
                    && 0 <= small < i && pool[small].Free() && pool[small].size == smallest
        invariant largest <= total
      {
        var node := pool[i];
        FreeTotalsStep(pool, i);
        if node.Free() {
          total := total + node.size;
          count := count + 1;
          if node.size > largest {
            largest, large := node.size, i;
          }
          if node.size < smallest {
            smallest, small := node.size, i;
          }
        }
      }
      assert pool[..|pool|] == pool;
      if count > 0 {
        assert pool[large] in pool && pool[small] in pool;
      }
    }

    /** Totals over the free blocks.  On a reachable memory the free total is what is not
        used, and the ratio is the share of it outside the largest block. */
    method GetFragmentationInfo() returns (info: FragmentationInfo)
      requires Inv()
      ensures info.totalFree == size - used
      ensures info.freeBlocks + |Live(pool)| == |pool|
      ensures forall n :: n in pool && n.Free() ==> info.smallestFree <= n.size <= info.largestFree
      ensures info.freeBlocks > 0 ==>
                && (exists n :: n in pool && n.Free() && n.size == info.largestFree)
                && (exists n :: n in pool && n.Free() && n.size == info.smallestFree)
                && info.largestFree <= info.totalFree && 0 < info.totalFree
                && info.ratio == Share(info.totalFree - info.largestFree, info.totalFree)
      ensures info.freeBlocks == 0 ==> info == FragmentationInfo(0, 0, 0, 0, 0.0)
    {
      SizesBounded();
      var total, largest, smallest, count := ScanFreeBlocks();
      FreePlusLive(pool, 0, size);
      FreeOrLive(pool);
      var ratio := 0.0;
      if count == 0 {
        smallest := 0;
      } else if total > 0 {
        ratio := Share(total - largest, total);
      }
      info := FragmentationInfo(total, largest, smallest, count, ratio);
    }
  }

  function Share(part: nat, whole: nat): (r: real)
    requires whole > 0
    ensures r * (whole as real) == part as real
  {
    part as real / whole as real
  }

  /** The effect of erasing two neighbouring free entries and inserting their union. */
  lemma PairFacts(p: Pool, i: nat, size: nat)
    requires Tiled(p, 0, size) && i + 1 < |p| && p[i].Free() && p[i + 1].Free()
    ensures var n := Node(p[i].addr, p[i].size + p[i + 1].size, 0);
            var q := Erase(p, p[i].addr);
            var m := p[..i] + [n] + p[i + 2..];
            && q == p[..i] + p[i + 1..]
            && q[i] == p[i + 1]
            && Put(Erase(q, p[i + 1].addr), n) == m
            && Tiled(m, 0, size) && Live(m) == Live(p)
  {
    var n := Node(p[i].addr, p[i].size + p[i + 1].size, 0);
    TiledSorted(p, 0, size);
    ErasePair(p, i);
    var r := p[..i] + p[i + 2..];
    PutBetween(p, i, n);
    MergedTiled(p, i, size);
    MergedLive(p, i);
  }

  lemma ErasePair(p: Pool, i: nat)
    requires Sorted(p) && i + 1 < |p|
    ensures var q := Erase(p, p[i].addr);
            && q == p[..i] + p[i + 1..]
            && q[i] == p[i + 1]
            && Erase(q, p[i + 1].addr) == p[..i] + p[i + 2..]
  {
    EraseRemoves(p, i);
    var q := p[..i] + p[i + 1..];
    SortedDrop(p, i);
    EraseRemoves(q, i);
    assert q[..i] == p[..i] && q[i + 1..] == p[i + 2..];
  }

  lemma PutBetween(p: Pool, i: nat, n: Node)
    requires Sorted(p) && i + 1 < |p| && n.addr == p[i].addr
    ensures Put(p[..i] + p[i + 2..], n) == p[..i] + [n] + p[i + 2..]
  {
    var q, r := p[..i] + p[i + 1..], p[..i] + p[i + 2..];
    SortedDrop(p, i);
    SortedDrop(q, i);
    assert r == q[..i] + q[i + 1..];
    PutInserts(r, i, n);
    assert r[..i] == p[..i] && r[i..] == p[i + 2..];
  }

  lemma SortedDrop(p: Pool, i: nat)
    requires Sorted(p) && i < |p|
    ensures Sorted(p[..i] + p[i + 1..])
  {
    var q := p[..i] + p[i + 1..];
    forall j, k | 0 <= j < k < |q|
      ensures q[j].addr < q[k].addr
    {
      assert q[j] == p[if j < i then j else j + 1] && q[k] == p[if k < i then k else k + 1];
    }
  }

  lemma MergedTiled(p: Pool, i: nat, size: nat)
    requires Tiled(p, 0, size) && i + 1 < |p|
    ensures Tiled(p[..i] + [Node(p[i].addr, p[i].size + p[i + 1].size, 0)] + p[i + 2..], 0, size)
  {
    var n := Node(p[i].addr, p[i].size + p[i + 1].size, 0);
    TiledSplit(p, i, 0, size);
    TiledSplit(p, i + 2, 0, size);
    TiledNext(p, 0, size, i);
    TiledNext(p, 0, size, i + 1);
    assert [n][1..] == [];
    TiledJoin(p[..i], [n], 0, n.addr, n.Limit());
    TiledJoin(p[..i] + [n], p[i + 2..], 0, n.Limit(), size);
  }

  lemma MergedLive(p: Pool, i: nat)
    requires i + 1 < |p| && p[i].Free() && p[i + 1].Free()
    ensures Live(p[..i] + [Node(p[i].addr, p[i].size + p[i + 1].size, 0)] + p[i + 2..]) == Live(p)
  {
    var n := Node(p[i].addr, p[i].size + p[i + 1].size, 0);
    var m := p[..i] + [n] + p[i + 2..];
    LiveAround(m, i);
    assert m[..i] == p[..i] && m[i + 1..] == p[i + 2..];
    LiveAround(p, i);
    LiveAround(p[i + 1..], 0);
    assert p[i + 1..][1..] == p[i + 2..] && p[i + 1..][..0] == [];
  }
}
