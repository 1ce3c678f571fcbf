/**
 What each allocator operation does to the block map and the used-byte count, and what
 therefore holds over whole runs of operations.
 */
module MemorySteps {
  import opened Common
  import opened MemoryPool

  datatype State = State(pool: Pool, used: nat)

  datatype Op = Allocate(bytes: nat) | BackwardAllocate(bytes: nat) | Deallocate(addr: nat)

  /** Invariant of a memory of `size` bytes. */
  ghost predicate Valid(s: State, size: nat) {
    && 0 < size < WORD_MODULUS - 1
    && Tiled(s.pool, 0, size)
    && Coalesced(s.pool)
    && s.used == TotalSize(Live(s.pool))
  }

  /** Round up to the alignment in 64-bit arithmetic: a sum past the word size wraps. */
  function AlignSize(bytes: nat): (r: nat)
    ensures r % MEMORY_ALIGNMENT == 0
    ensures bytes < WORD_MODULUS ==> (r == 0 <==> bytes == 0 || bytes > WORD_MODULUS - MEMORY_ALIGNMENT)
    ensures bytes <= WORD_MODULUS - MEMORY_ALIGNMENT ==> bytes <= r < bytes + MEMORY_ALIGNMENT
  {
    var sum := (bytes + MEMORY_ALIGNMENT - 1) % WORD_MODULUS;
    sum - sum % MEMORY_ALIGNMENT
  }

  /** The aligned size a forward request asks for: a request for nothing becomes 64 bytes. */
  function ForwardSize(bytes: nat): nat {
    AlignSize(if bytes == 0 then 64 else bytes)
  }

  /** The bytes set aside for a request: the least multiple of the alignment that holds it, and one
      alignment unit for a request for nothing. */
  predicate SetAside(bytes: nat, size: nat) {
    if bytes == 0 then size == MEMORY_ALIGNMENT else LeastMultiple(size, bytes, MEMORY_ALIGNMENT)
  }

  lemma SetAsideSizes(bytes: nat)
    requires bytes <= WORD_MODULUS - MEMORY_ALIGNMENT
    ensures SetAside(bytes, ForwardSize(bytes))
    ensures bytes > 0 ==> SetAside(bytes, AlignSize(bytes))
  {
  }

  lemma SetAsideUnique(bytes: nat, a: nat, b: nat)
    requires SetAside(bytes, a) && SetAside(bytes, b)
    ensures a == b
  {
    if bytes > 0 {
      LeastMultipleUnique(a, b, bytes, MEMORY_ALIGNMENT);
    }
  }

  /** Every free block is smaller than `need`. */
  ghost predicate AllSmaller(p: Pool, need: nat) {
    forall n :: n in p && n.Free() ==> n.size < need
  }

  lemma NoFitAllSmaller(p: Pool, need: nat)
    ensures NoFit(p, need) <==> AllSmaller(p, need)
  {
    if NoFit(p, need) {
      forall n | n in p && n.Free()
        ensures n.size < need
      {
        var i :| 0 <= i < |p| && p[i] == n;
        assert !Fits(p[i], need);
      }
    }
    if AllSmaller(p, need) {
      forall i | 0 <= i < |p|
        ensures !Fits(p[i], need)
      {
        assert p[i] in p;
      }
    }
  }

  predicate Fits(n: Node, required: nat) {
    n.Free() && n.size >= required
  }

  ghost predicate NoFit(p: Pool, required: nat) {
    forall i :: 0 <= i < |p| ==> !Fits(p[i], required)
  }

  /** Smallest block that fits; among equals the lowest address. */
  ghost predicate FirstBestFit(p: Pool, required: nat, i: nat) {
    && i < |p| && Fits(p[i], required)
    && forall j :: 0 <= j < |p| && Fits(p[j], required) ==>
                     p[i].size < p[j].size || (p[i].size == p[j].size && i <= j)
  }

  /** Smallest block that fits; among equals the highest address. */
  ghost predicate LastBestFit(p: Pool, required: nat, i: nat) {
    && i < |p| && Fits(p[i], required)
    && forall j :: 0 <= j < |p| && Fits(p[j], required) ==>
                     p[i].size < p[j].size || (p[i].size == p[j].size && j <= i)
  }

  /** The map writes of a forward allocation from entry `i`. */
  function CarveFront(p: Pool, i: nat, required: nat): Pool
    requires i < |p| && required <= p[i].size
  {
    var n := p[i];
    var rest := if required < n.size then Put(p, Node(n.addr + required, n.size - required, 0)) else p;
    Put(rest, Node(n.addr, required, 1))
  }

  /** The map writes of a backward allocation from entry `i`. */
  function CarveBack(p: Pool, i: nat, required: nat): Pool
    requires i < |p| && required <= p[i].size
  {
    var n := p[i];
    var remain := n.size - required;
    var rest := if required < n.size then Put(p, Node(n.addr, remain, 0)) else p;
    Put(rest, Node(n.addr + remain, required, 1))
  }

  // ----- The steps -----

  /** Entry `i` gives its first `required` bytes. */
  ghost predicate TakesFront(s: State, required: nat, i: nat, s': State, result: int) {
    && FirstBestFit(s.pool, required, i)
    && s' == State(CarveFront(s.pool, i, required), (s.used + required) % WORD_MODULUS)
    && result == s.pool[i].addr
  }

  /** Entry `i` gives its last `required` bytes. */
  ghost predicate TakesBack(s: State, required: nat, i: nat, s': State, result: int) {
    && LastBestFit(s.pool, required, i)
    && s' == State(CarveBack(s.pool, i, required), (s.used + required) % WORD_MODULUS)
    && result == s.pool[i].Limit() - required
  }

  ghost predicate AllocateStep(s: State, bytes: nat, s': State, result: int) {
    var required := ForwardSize(bytes);
    if NoFit(s.pool, required) then s' == s && result == -1
    else exists i: nat :: TakesFront(s, required, i, s', result)
  }

  ghost predicate BackwardStep(s: State, bytes: nat, s': State, result: int) {
    var required := AlignSize(bytes);
    if NoFit(s.pool, required) then s' == s && result == -1
    else exists i: nat :: TakesBack(s, required, i, s', result)
  }

  /** Entry `i` leaves the live blocks; the bytes stay tiled and no two neighbours are left
      free. */
  ghost predicate Releases(s: State, i: nat, s': State, size: nat) {
    && i < |s.pool|
    && Tiled(s'.pool, 0, size) && Coalesced(s'.pool)
    && Live(s'.pool) == Live(s.pool[..i]) + Live(s.pool[i + 1..])
    && s'.used == (s.used - s.pool[i].size) % WORD_MODULUS
  }

  ghost predicate Keyed(p: Pool, addr: nat) {
    exists n :: n in p && n.addr == addr
  }

  /** Freeing an address that is not a key does nothing. */
  ghost predicate DeallocateStep(s: State, addr: nat, s': State, size: nat) {
    if !Keyed(s.pool, addr) then s' == s
    else exists i: nat :: Releases(s, i, s', size) && s.pool[i].addr == addr
  }

  ghost predicate Next(s: State, op: Op, s': State, result: int, size: nat) {
    match op
    case Allocate(n) => AllocateStep(s, n, s', result)
    case BackwardAllocate(n) => BackwardStep(s, n, s', result)
    case Deallocate(a) => DeallocateStep(s, a, s', size) && result == 0
  }

  /** What a caller must respect: no request so large that aligning it wraps, no backward
      request for nothing, and no freeing of a block that is already free. */
  ghost predicate Proper(s: State, op: Op) {
    match op
    case Allocate(n) => n <= WORD_MODULUS - MEMORY_ALIGNMENT
    case BackwardAllocate(n) => 0 < n <= WORD_MODULUS - MEMORY_ALIGNMENT
    case Deallocate(a) => forall n :: n in s.pool && n.addr == a ==> !n.Free()
  }

  // ----- Carving is a splice -----

  ghost function FrontPieces(n: Node, required: nat): Pool
    requires required <= n.size
  {
    [Node(n.addr, required, 1)] + Gap(n.addr + required, n.Limit())
  }

  ghost function BackPieces(n: Node, required: nat): Pool
    requires required <= n.size
  {
    Gap(n.addr, n.Limit() - required) + [Node(n.Limit() - required, required, 1)]
  }

  /** Inserting an entry right after entry `i`, then overwriting entry `i`. */
  lemma PutAfterThenAt(p: Pool, i: nat, first: Node, second: Node)
    requires Sorted(p) && i < |p|
    requires first.addr == p[i].addr < second.addr
    requires i + 1 < |p| ==> second.addr < p[i + 1].addr
    ensures Put(Put(p, second), first) == p[..i] + [first] + [second] + p[i + 1..]
  {
    PutInserts(p, i + 1, second);
    var q := Put(p, second);
    InsertedSorted(p, i + 1, second);
    assert q[i] == p[i];
    PutReplaces(q, i, first);
    ReplacedSlices(p, i, first, second);
  }

  lemma InsertedSorted(p: Pool, i: nat, n: Node)
    requires Sorted(p) && i <= |p|
    requires i > 0 ==> p[i - 1].addr < n.addr
    requires i < |p| ==> n.addr < p[i].addr
    ensures Sorted(p[..i] + [n] + p[i..])
  {
    var q := p[..i] + [n] + p[i..];
    forall a, b | 0 <= a < b < |q|
      ensures q[a].addr < q[b].addr
    {
      assert a < i ==> p[a].addr <= p[i - 1].addr;
      assert b > i ==> p[i].addr <= p[b - 1].addr;
    }
  }

  lemma ReplacedSlices(p: Pool, i: nat, first: Node, second: Node)
    requires i < |p|
    ensures (p[..i + 1] + [second] + p[i + 1..])[i := first] == p[..i] + [first] + [second] + p[i + 1..]
  {
    assert p[..i + 1] == p[..i] + [p[i]];
  }


  /** Overwriting entry `i`, then inserting an entry right after it. */
  lemma {:induction false} PutAtThenAfter(p: Pool, i: nat, first: Node, second: Node)
    requires Sorted(p) && i < |p|
    requires first.addr == p[i].addr < second.addr
    requires i + 1 < |p| ==> second.addr < p[i + 1].addr
    ensures Put(Put(p, first), second) == p[..i] + [first] + [second] + p[i + 1..]
  {
    PutReplaces(p, i, first);
    var q := p[i := first];
    assert Sorted(q);
    PutInserts(q, i + 1, second);
    assert q[..i + 1] == p[..i] + [first] && q[i + 1..] == p[i + 1..];
  }


  lemma CarveSplices(p: Pool, i: nat, required: nat, size: nat)
    requires Tiled(p, 0, size) && i < |p| && 0 < required <= p[i].size
    ensures CarveFront(p, i, required) == p[..i] + FrontPieces(p[i], required) + p[i + 1..]
    ensures CarveBack(p, i, required) == p[..i] + BackPieces(p[i], required) + p[i + 1..]
  {
    TiledSorted(p, 0, size);
    TiledNext(p, 0, size, i);
    if required < p[i].size {
      SplitFront(p, i, required);
      SplitBack(p, i, required);
    } else {
      var n := Node(p[i].addr, required, 1);
      PutReplaces(p, i, n);
      assert p[i := n] == p[..i] + [n] + p[i + 1..];
      assert FrontPieces(p[i], required) == BackPieces(p[i], required) == [n];
    }
  }

  lemma SplitFront(p: Pool, i: nat, required: nat)
    requires Sorted(p) && i < |p| && 0 < required < p[i].size && (i + 1 < |p| ==> p[i].Limit() == p[i + 1].addr)
    ensures CarveFront(p, i, required) == p[..i] + FrontPieces(p[i], required) + p[i + 1..]
  {
    var n := p[i];
    var busy, rest := Node(n.addr, required, 1), Node(n.addr + required, n.size - required, 0);
    PutAfterThenAt(p, i, busy, rest);
    assert FrontPieces(n, required) == [busy] + [rest];
    Regroup(p[..i], busy, rest, p[i + 1..]);
  }

  lemma SplitBack(p: Pool, i: nat, required: nat)
    requires Sorted(p) && i < |p| && 0 < required < p[i].size && (i + 1 < |p| ==> p[i].Limit() == p[i + 1].addr)
    ensures CarveBack(p, i, required) == p[..i] + BackPieces(p[i], required) + p[i + 1..]
  {
    var n := p[i];
    var rest, busy := Node(n.addr, n.size - required, 0), Node(n.addr + (n.size - required), required, 1);
    PutAtThenAfter(p, i, rest, busy);
    assert BackPieces(n, required) == [rest] + [busy];
    Regroup(p[..i], rest, busy, p[i + 1..]);
  }

  lemma Regroup(a: Pool, x: Node, y: Node, b: Pool)
    ensures a + [x] + [y] + b == a + ([x] + [y]) + b
  {
  }

  /** Replacing a free block by pieces that hold one busy block keeps the invariant. */
  lemma SplicedValid(s: State, i: nat, pieces: Pool, busy: Node, size: nat)
    requires Valid(s, size) && i < |s.pool| && s.pool[i].Free()
    requires Tiled(pieces, s.pool[i].addr, s.pool[i].Limit())
    requires Live(pieces) == [busy] && Coalesced(pieces)
    ensures var p' := s.pool[..i] + pieces + s.pool[i + 1..];
            Valid(State(p', s.used + busy.size), size)
            && Live(p') == Live(s.pool[..i]) + [busy] + Live(s.pool[i + 1..])
            && s.used + busy.size < WORD_MODULUS
  {
    var p := s.pool;
    var a, b := p[..i], p[i + 1..];
    var p' := a + pieces + b;
    TiledSplice(p, i, pieces, 0, size);
    LiveJoin(a + pieces, b);
    LiveJoin(a, pieces);
    SplicedTotal(p, i, busy);
    LiveFits(p', 0, size);
    SplicedCoalesced(p, i, pieces);
  }

  lemma {:induction false} SplicedTotal(p: Pool, i: nat, busy: Node)
    requires i < |p| && p[i].Free()
    ensures TotalSize(Live(p[..i]) + [busy] + Live(p[i + 1..])) == TotalSize(Live(p)) + busy.size
  {
    var a, b := Live(p[..i]), Live(p[i + 1..]);
    LiveAround(p, i);
    assert Live(p) == a + b;
    TotalInsert(a, busy, b);
  }

  lemma TotalInsert(a: Pool, n: Node, b: Pool)
    ensures TotalSize(a + [n] + b) == TotalSize(a + b) + n.size
  {
    TotalJoin(a, b);
    TotalJoin(a + [n], b);
    TotalJoin(a, [n]);
    LiveOne(n);
  }

  lemma SplicedCoalesced(p: Pool, i: nat, pieces: Pool)
    requires i < |p| && p[i].Free() && Coalesced(p) && Coalesced(pieces) && pieces != []
    ensures Coalesced(p[..i] + pieces + p[i + 1..])
  {
    var p' := p[..i] + pieces + p[i + 1..];
    forall k, m | 0 <= k < |p'| && 0 <= m < |p'| && m == k + 1
      ensures !(p'[k].Free() && p'[m].Free())
    {
      if k + 1 == i {
        assert p'[k] == p[i - 1];
      } else if k == i + |pieces| - 1 {
        assert p'[m] == p[i + 1];
      } else if k < i {
        assert p'[k] == p[k] && p'[m] == p[m];
      } else if k < i + |pieces| {
        assert p'[k] == pieces[k - i] && p'[m] == pieces[m - i];
      } else {
        assert p'[k] == p[k - |pieces| + 1] && p'[m] == p[m - |pieces| + 1];
      }
    }
  }

  lemma LiveOne(n: Node)
    ensures Live([n]) == if n.Free() then [] else [n]
    ensures TotalSize([n]) == n.size
  {
    assert [n][1..] == [];
    assert Live([]) == [] && TotalSize([]) == 0;
  }

  lemma {:induction false} LiveAround(p: Pool, i: nat)
    requires i < |p|
    ensures Live(p) == Live(p[..i]) + (if p[i].Free() then [] else [p[i]]) + Live(p[i + 1..])
  {
    assert p == p[..i] + [p[i]] + p[i + 1..];
    LiveJoin(p[..i] + [p[i]], p[i + 1..]);
    LiveJoin(p[..i], [p[i]]);
    LiveOne(p[i]);
  }

  lemma CarvedValid(s: State, i: nat, required: nat, size: nat)
    requires Valid(s, size) && i < |s.pool| && Fits(s.pool[i], required) && 0 < required
    ensures var n := s.pool[i];
            && s.used + required < WORD_MODULUS
            && Valid(State(CarveFront(s.pool, i, required), s.used + required), size)
            && Valid(State(CarveBack(s.pool, i, required), s.used + required), size)
            && Live(CarveFront(s.pool, i, required))
               == Live(s.pool[..i]) + [Node(n.addr, required, 1)] + Live(s.pool[i + 1..])
            && Live(CarveBack(s.pool, i, required))
               == Live(s.pool[..i]) + [Node(n.Limit() - required, required, 1)] + Live(s.pool[i + 1..])
  {
    var n := s.pool[i];
    CarveSplices(s.pool, i, required, size);
    PiecesTile(n, required);
    SplicedValid(s, i, FrontPieces(n, required), Node(n.addr, required, 1), size);
    SplicedValid(s, i, BackPieces(n, required), Node(n.Limit() - required, required, 1), size);
  }

  lemma PiecesTile(n: Node, required: nat)
    requires 0 < required <= n.size
    ensures Tiled(FrontPieces(n, required), n.addr, n.Limit()) && Coalesced(FrontPieces(n, required))
    ensures Tiled(BackPieces(n, required), n.addr, n.Limit()) && Coalesced(BackPieces(n, required))
    ensures Live(FrontPieces(n, required)) == [Node(n.addr, required, 1)]
    ensures Live(BackPieces(n, required)) == [Node(n.Limit() - required, required, 1)]
  {
    var busyFront, busyBack := Node(n.addr, required, 1), Node(n.Limit() - required, required, 1);
    var front, back := Gap(n.addr + required, n.Limit()), Gap(n.addr, n.Limit() - required);
    GapFacts(n.addr + required, n.Limit());
    GapFacts(n.addr, n.Limit() - required);
    LiveOne(busyFront);
    LiveOne(busyBack);
    LiveJoin([busyFront], front);
    LiveJoin(back, [busyBack]);
    assert [busyFront][1..] == [] && [busyBack][1..] == [];
    TiledJoin([busyFront], front, n.addr, n.addr + required, n.Limit());
    TiledJoin(back, [busyBack], n.addr, n.Limit() - required, n.Limit());
  }

  lemma GapFacts(lo: nat, hi: nat)
    requires lo <= hi
    ensures Tiled(Gap(lo, hi), lo, hi) && Live(Gap(lo, hi)) == []
  {
    if lo < hi {
      LiveOne(Node(lo, hi - lo, 0));
      assert Gap(lo, hi)[1..] == [];
    }
  }

  // ----- Freeing -----

  /** The same block map with entry `i` marked free, before any merging. */
  ghost function Freed(p: Pool, i: nat): Pool
    requires i < |p|
  {
    p[i := p[i].(status := 0)]
  }

  lemma FreedFacts(p: Pool, i: nat, size: nat)
    requires Tiled(p, 0, size) && i < |p|
    ensures Tiled(Freed(p, i), 0, size)
    ensures Live(Freed(p, i)) == Live(p[..i]) + Live(p[i + 1..])
    ensures TotalSize(Live(Freed(p, i))) == TotalSize(Live(p)) - (if p[i].Free() then 0 else p[i].size)
  {
    var q, n := Freed(p, i), p[i].(status := 0);
    var a, b := p[..i], p[i + 1..];
    assert q == a + [n] + b;
    assert q[..i] == a && q[i + 1..] == b;
    FreedTiled(p, i, size);
    LiveAround(q, i);
    assert Live(a) + [] + Live(b) == Live(a) + Live(b);
    TotalWithout(p, i);
  }

  lemma {:induction false} TotalWithout(p: Pool, i: nat)
    requires i < |p|
    ensures TotalSize(Live(p[..i]) + Live(p[i + 1..])) == TotalSize(Live(p)) - (if p[i].Free() then 0 else p[i].size)
  {
    var a, b := Live(p[..i]), Live(p[i + 1..]);
    LiveAround(p, i);
    assert p[i].Free() ==> Live(p) == a + b;
    TotalInsert(a, p[i], b);
  }

  lemma FreedTiled(p: Pool, i: nat, size: nat)
    requires Tiled(p, 0, size) && i < |p|
    ensures Tiled(Freed(p, i), 0, size)
  {
    var n := p[i].(status := 0);
    TiledNext(p, 0, size, i);
    assert [n][1..] == [] && Tiled([], n.Limit(), n.Limit());
    TiledSplice(p, i, [n], 0, size);
    assert Freed(p, i) == p[..i] + [n] + p[i + 1..];
  }

  // ----- What every operation keeps, and exactly when -----

  ghost predicate SomeFree(p: Pool) {
    exists n :: n in p && n.Free()
  }

  lemma TiledMember(p: Pool, lo: nat, hi: nat, n: Node)
    requires Tiled(p, lo, hi) && n in p
    ensures n.size > 0
  {
    var i :| 0 <= i < |p| && p[i] == n;
    TiledNext(p, lo, hi, i);
  }

  /** A free block exists exactly when a request for nothing fits somewhere. */
  lemma NothingFits(p: Pool)
    ensures NoFit(p, 0) <==> !SomeFree(p)
  {
    if SomeFree(p) {
      var n :| n in p && n.Free();
      var i :| 0 <= i < |p| && p[i] == n;
      assert Fits(p[i], 0);
    }
  }

  /** The block a successful allocation takes, and where it lands among the live blocks;
      an allocation of nothing leaves an empty block behind. */
  lemma TakesKeeps(s: State, required: nat, i: nat, s': State, result: int, size: nat)
    requires Valid(s, size)
    requires TakesFront(s, required, i, s', result) || TakesBack(s, required, i, s', result)
    ensures Valid(s', size) <==> required > 0
    ensures i < |s.pool| && s.pool[i].Free()
    ensures required > 0 ==>
              result >= 0
              && Live(s'.pool) == Live(s.pool[..i]) + [Node(result, required, 1)] + Live(s.pool[i + 1..])
  {
    if required == 0 {
      TakesNothing(s, i, s', result, size);
    } else if TakesFront(s, required, i, s', result) {
      FrontTaken(s, required, i, s', result, size);
    } else {
      BackTaken(s, required, i, s', result, size);
    }
  }

  lemma FrontTaken(s: State, required: nat, i: nat, s': State, result: int, size: nat)
    requires Valid(s, size) && required > 0 && TakesFront(s, required, i, s', result)
    ensures Valid(s', size)
    ensures result >= 0 && Live(s'.pool) == Live(s.pool[..i]) + [Node(result, required, 1)] + Live(s.pool[i + 1..])
  {
    CarvedValid(s, i, required, size);
    assert s'.used == s.used + required;
  }

  lemma BackTaken(s: State, required: nat, i: nat, s': State, result: int, size: nat)
    requires Valid(s, size) && required > 0 && TakesBack(s, required, i, s', result)
    ensures Valid(s', size)
    ensures result >= 0 && Live(s'.pool) == Live(s.pool[..i]) + [Node(result, required, 1)] + Live(s.pool[i + 1..])
  {
    CarvedValid(s, i, required, size);
    assert s'.used == s.used + required;
  }

  lemma TakesNothing(s: State, i: nat, s': State, result: int, size: nat)
    requires TakesFront(s, 0, i, s', result) || TakesBack(s, 0, i, s', result)
    ensures !Valid(s', size)
  {
    var n := s.pool[i];
    var empty := Node(if TakesFront(s, 0, i, s', result) then n.addr else n.Limit(), 0, 1);
    CarvesNothing(s.pool, i);
    EmptyBlockBreaks(s'.pool, empty, size);
  }

  lemma CarvesNothing(p: Pool, i: nat)
    requires i < |p|
    ensures Node(p[i].addr, 0, 1) in CarveFront(p, i, 0)
    ensures Node(p[i].Limit(), 0, 1) in CarveBack(p, i, 0)
  {
    var n := p[i];
    PutHas(if 0 < n.size then Put(p, Node(n.addr + 0, n.size - 0, 0)) else p, Node(n.addr, 0, 1));
    PutHas(if 0 < n.size then Put(p, Node(n.addr, n.size, 0)) else p, Node(n.addr + n.size, 0, 1));
  }

  /** A forward allocation keeps the invariant exactly when aligning its size does not wrap
      (or there is no free block to damage), and fails exactly when no free block is large
      enough. */
  lemma AllocateKeeps(s: State, bytes: nat, s': State, result: int, size: nat)
    requires Valid(s, size) && bytes < WORD_MODULUS && AllocateStep(s, bytes, s', result)
    ensures Valid(s', size) <==> bytes <= WORD_MODULUS - MEMORY_ALIGNMENT || !SomeFree(s.pool)
    ensures result == -1 <==> NoFit(s.pool, ForwardSize(bytes))
    ensures forall need: nat :: bytes <= WORD_MODULUS - MEMORY_ALIGNMENT && SetAside(bytes, need) ==> (result == -1 <==> AllSmaller(s.pool, need))
  {
    var required := ForwardSize(bytes);
    NothingFits(s.pool);
    NoFitAllSmaller(s.pool, required);
    forall need: nat | bytes <= WORD_MODULUS - MEMORY_ALIGNMENT && SetAside(bytes, need)
      ensures need == required
    {
      SetAsideSizes(bytes);
      SetAsideUnique(bytes, need, required);
    }
    if !NoFit(s.pool, required) {
      var i: nat :| TakesFront(s, required, i, s', result);
      TakesKeeps(s, required, i, s', result, size);
      assert SomeFree(s.pool) by {
        assert s.pool[i] in s.pool;
      }
    }
  }

  /** Likewise backward, where a request for nothing is not replaced by 64 bytes. */
  lemma BackwardKeeps(s: State, bytes: nat, s': State, result: int, size: nat)
    requires Valid(s, size) && bytes < WORD_MODULUS && BackwardStep(s, bytes, s', result)
    ensures Valid(s', size) <==> 0 < bytes <= WORD_MODULUS - MEMORY_ALIGNMENT || !SomeFree(s.pool)
    ensures result == -1 <==> NoFit(s.pool, AlignSize(bytes))
    ensures forall need: nat :: 0 < bytes <= WORD_MODULUS - MEMORY_ALIGNMENT && SetAside(bytes, need) ==> (result == -1 <==> AllSmaller(s.pool, need))
  {
    var required := AlignSize(bytes);
    NothingFits(s.pool);
    NoFitAllSmaller(s.pool, required);
    forall need: nat | 0 < bytes <= WORD_MODULUS - MEMORY_ALIGNMENT && SetAside(bytes, need)
      ensures need == required
    {
      SetAsideSizes(bytes);
      SetAsideUnique(bytes, need, required);
    }
    if !NoFit(s.pool, required) {
      var i: nat :| TakesBack(s, required, i, s', result);
      TakesKeeps(s, required, i, s', result, size);
      assert SomeFree(s.pool) by {
        assert s.pool[i] in s.pool;
      }
    }
  }

  lemma EmptyBlockBreaks(p: Pool, n: Node, size: nat)
    requires n in p && n.size == 0
    ensures !Tiled(p, 0, size)
  {
    if Tiled(p, 0, size) {
      TiledMember(p, 0, size, n);
    }
  }

  lemma ReleasesKeeps(s: State, i: nat, s': State, size: nat)
    requires Valid(s, size) && Releases(s, i, s', size)
    ensures Valid(s', size) <==> !s.pool[i].Free()
  {
    FreedFacts(s.pool, i, size);
    LiveFits(s.pool, 0, size);
    TiledNext(s.pool, 0, size, i);
    TiledOrder(s.pool, 0, size, i, i + 1);
  }

  /** Keys are unique. */
  lemma OneKey(p: Pool, size: nat, i: nat, n: Node)
    requires Tiled(p, 0, size) && i < |p| && n in p && n.addr == p[i].addr
    ensures n == p[i]
  {
    TiledSorted(p, 0, size);
    var k :| 0 <= k < |p| && p[k] == n;
    assert k == i;
  }

  /** Freeing keeps the invariant exactly when the address is not that of a free block. */
  lemma DeallocateKeeps(s: State, addr: nat, s': State, size: nat)
    requires Valid(s, size) && DeallocateStep(s, addr, s', size)
    ensures Valid(s', size) <==> forall n :: n in s.pool && n.addr == addr ==> !n.Free()
  {
    if Keyed(s.pool, addr) {
      var i: nat :| Releases(s, i, s', size) && s.pool[i].addr == addr;
      ReleasesKeeps(s, i, s', size);
      forall n | n in s.pool && n.addr == addr
        ensures n == s.pool[i]
      {
        OneKey(s.pool, size, i, n);
      }
      assert s.pool[i] in s.pool;
    }
  }

  /** A backward request for nothing can wipe out a live block: its empty block is written at
      the key of the next one. */
  lemma BackwardZeroOverwrites()
    ensures var s := State([Node(0, 4096, 0), Node(4096, 4096, 1)], 4096);
            var s' := State([Node(0, 4096, 0), Node(4096, 0, 1)], 4096);
            Valid(s, 8192) && BackwardStep(s, 0, s', 4096) && !Valid(s', 8192)
  {
    var free, busy, empty := Node(0, 4096, 0), Node(4096, 4096, 1), Node(4096, 0, 1);
    var p := [free, busy];
    var s, s' := State(p, 4096), State([free, empty], 4096);
    assert p[1..] == [busy] && [busy][1..] == [];
    assert Tiled([], 8192, 8192) && Tiled([busy], 4096, 8192) && Tiled(p, 0, 8192);
    LiveOne(busy);
    assert Live(p) == [busy];
    assert Valid(s, 8192);
    assert AlignSize(0) == 0;
    assert Put(p, free) == p;
    assert Put([busy], empty) == [empty];
    assert Put(p, empty) == [free] + [empty];
    assert CarveBack(p, 0, 0) == [free, empty];
    assert TakesBack(s, 0, 0, s', 4096);
    EmptyBlockBreaks(s'.pool, empty, 8192);
  }

  /** A request that wraps to nothing when aligned loses the whole memory: its empty block
      replaces the only free one. */
  lemma WrappedAllocateLoses()
    ensures var s := Initial(4096);
            var s' := State([Node(0, 0, 1)], 0);
            Valid(s, 4096) && AllocateStep(s, WORD_MODULUS - 1, s', 0) && !Valid(s', 4096)
  {
    var s, empty := Initial(4096), Node(0, 0, 1);
    var s' := State([empty], 0);
    InitialValid(4096);
    assert AlignSize(WORD_MODULUS - 1) == 0;
    assert Put(s.pool, Node(0, 4096, 0)) == s.pool && Put(s.pool, empty) == [empty];
    assert CarveFront(s.pool, 0, 0) == [empty];
    assert TakesFront(s, 0, 0, s', 0);
    EmptyBlockBreaks(s'.pool, empty, 4096);
  }

  /** Freeing a free block makes the used count wrap below zero. */
  lemma FreeingFreeBreaks()
    ensures var s := Initial(4096);
            var s' := State(s.pool, WORD_MODULUS - 4096);
            Valid(s, 4096) && DeallocateStep(s, 0, s', 4096) && !Valid(s', 4096)
  {
    var s := Initial(4096);
    var s' := State(s.pool, WORD_MODULUS - 4096);
    InitialValid(4096);
    LiveOne(s.pool[0]);
    assert s.pool[0] in s.pool;
    assert s.pool[..0] == [] && s.pool[1..] == [] && Live(s.pool) == [];
    assert (0 - 4096) % WORD_MODULUS == WORD_MODULUS - 4096;
    assert Releases(s, 0, s', 4096);
  }

  // ----- Canonical form: the live blocks decide everything -----

  /** Two reachable memories with the same live blocks are the same memory, in whatever
      order the blocks were taken and freed. */
  lemma SameLiveSameState(s: State, t: State, size: nat)
    requires Valid(s, size) && Valid(t, size) && Live(s.pool) == Live(t.pool)
    ensures s == t
  {
    CanonicalPool(s.pool, 0, size);
    CanonicalPool(t.pool, 0, size);
  }

  ghost function Initial(size: nat): State {
    State([Node(0, size, 0)], 0)
  }

  lemma InitialValid(size: nat)
    requires 0 < size < WORD_MODULUS - 1
    ensures Valid(Initial(size), size) && Live(Initial(size).pool) == []
  {
    LiveOne(Node(0, size, 0));
    assert Initial(size).pool[1..] == [];
  }

  /** Once every block is freed the memory is back to one free block of full size. */
  lemma AllFreedIsInitial(s: State, size: nat)
    requires Valid(s, size) && Live(s.pool) == []
    ensures s == Initial(size)
  {
    InitialValid(size);
    SameLiveSameState(s, Initial(size), size);
  }

  /** Merging any tiled pool to one without free neighbours changes nothing once the pool
      already has none. */
  lemma MergeIsIdentity(s: State, merged: Pool, size: nat)
    requires Valid(s, size)
    requires Tiled(merged, 0, size) && Coalesced(merged) && Live(merged) == Live(s.pool)
    ensures merged == s.pool
  {
    CanonicalPool(s.pool, 0, size);
    CanonicalPool(merged, 0, size);
  }

  /** Allocating and freeing the result restores the exact block map and count. */
  lemma AllocateThenFree(s: State, op: Op, s1: State, result: nat, s2: State, size: nat)
    requires Valid(s, size) && !op.Deallocate? && Proper(s, op)
    requires Next(s, op, s1, result, size) && Next(s1, Deallocate(result), s2, 0, size)
    ensures s2 == s
  {
    var i, busy := TakenBlock(s, op, s1, result, size);
    var p, q := s.pool, s1.pool;
    assert busy in Live(q);
    LiveMember(q, busy);
    assert Keyed(q, result);
    var k: nat :| Releases(s1, k, s2, size) && q[k].addr == result;
    OneKey(q, size, k, busy);
    ReleasesKeeps(s1, k, s2, size);
    LiveUnsplice(p, i, q, k, busy, size);
    SameLiveSameState(s, s2, size);
  }

  lemma LiveUnsplice(p: Pool, i: nat, q: Pool, k: nat, busy: Node, size: nat)
    requires i < |p| && p[i].Free() && k < |q| && q[k] == busy && !busy.Free() && Tiled(q, 0, size)
    requires Live(q) == Live(p[..i]) + [busy] + Live(p[i + 1..])
    ensures Live(p) == Live(q[..k]) + Live(q[k + 1..])
  {
    LiveAround(q, k);
    LiveAround(p, i);
    TiledSorted(q, 0, size);
    SortedLive(q);
    SplitUnique(Live(q), busy, Live(p[..i]), Live(p[i + 1..]), Live(q[..k]), Live(q[k + 1..]));
    assert Live(p[..i]) + [] == Live(p[..i]);
  }

  lemma TakenBlock(s: State, op: Op, s': State, result: nat, size: nat) returns (i: nat, busy: Node)
    requires Valid(s, size) && !op.Deallocate? && Proper(s, op) && Next(s, op, s', result, size)
    ensures i < |s.pool| && s.pool[i].Free() && Valid(s', size)
    ensures Live(s'.pool) == Live(s.pool[..i]) + [busy] + Live(s.pool[i + 1..])
    ensures busy.addr == result && busy.status == 1 && SetAside(op.bytes, busy.size)
    ensures op.Allocate? ==> busy.addr == s.pool[i].addr
    ensures op.BackwardAllocate? ==> busy.Limit() == s.pool[i].Limit()
    ensures busy.size <= s.pool[i].size && forall n :: n in s.pool && n.Free() && n.size >= busy.size ==> n.size >= s.pool[i].size
  {
    SetAsideSizes(op.bytes);
    var required := if op.Allocate? then ForwardSize(op.bytes) else AlignSize(op.bytes);
    if op.Allocate? {
      i :| TakesFront(s, required, i, s', result);
    } else {
      i :| TakesBack(s, required, i, s', result);
    }
    TakesKeeps(s, required, i, s', result, size);
    busy := Node(result, required, 1);
  }

  lemma {:induction false} SortedLive(p: Pool)
    requires Sorted(p)
    ensures Sorted(Live(p))
  {
    if p != [] {
      SortedLive(p[1..]);
      var l := Live(p[1..]);
      forall j | 0 <= j < |l|
        ensures p[0].addr < l[j].addr
      {
        LiveMember(p[1..], l[j]);
      }
    }
  }

  lemma SplitUnique(m: Pool, n: Node, a: Pool, b: Pool, c: Pool, d: Pool)
    requires Sorted(m) && m == a + [n] + b && m == c + [n] + d
    ensures a == c && b == d
  {
    assert m[|a|] == n && m[|c|] == n;
    assert |a| == |c|;
    assert a == m[..|a|] && c == m[..|c|];
    assert b == m[|a| + 1..] && d == m[|c| + 1..];
  }
}
