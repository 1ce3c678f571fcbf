/**
 Alignment of the addresses handed out, over every run of the allocator.
 */
module MemoryAlignment {
  import opened MemoryPool
  import opened MemorySteps
  import opened MemoryRuns

  predicate Aligned(n: int) {
    n % MEMORY_ALIGNMENT == 0
  }

  ghost predicate LiveAligned(p: Pool) {
    forall n :: n in Live(p) ==> Aligned(n.addr) && Aligned(n.size)
  }

  lemma BusyIsLive(p: Pool, i: nat)
    requires i < |p| && !p[i].Free()
    ensures p[i] in Live(p)
  {
    LiveAround(p, i);
  }

  /** Between aligned live blocks, and in a memory of aligned size, free blocks are aligned. */
  lemma FreeBoundsAligned(p: Pool, i: nat, size: nat)
    requires Tiled(p, 0, size) && Coalesced(p) && LiveAligned(p) && Aligned(size) && i < |p| && p[i].Free()
    ensures Aligned(p[i].addr) && Aligned(p[i].Limit())
  {
    TiledNext(p, 0, size, i);
    if i > 0 {
      TiledNext(p, 0, size, i - 1);
      BusyIsLive(p, i - 1);
    }
    if i + 1 < |p| {
      BusyIsLive(p, i + 1);
    }
  }

  /** The block taken by an allocation, with its aligned size. */
  lemma TakenAligned(s: State, required: nat, i: nat, s': State, result: int, size: nat)
    requires Valid(s, size) && LiveAligned(s.pool) && Aligned(size) && Aligned(required) && required > 0
    requires TakesFront(s, required, i, s', result) || TakesBack(s, required, i, s', result)
    ensures Aligned(result) && LiveAligned(s'.pool)
  {
    TakesKeeps(s, required, i, s', result, size);
    FreeBoundsAligned(s.pool, i, size);
    LiveAround(s.pool, i);
    assert Aligned(result);
    forall n | n in Live(s'.pool)
      ensures Aligned(n.addr) && Aligned(n.size)
    {
      assert n == Node(result, required, 1) || n in Live(s.pool);
    }
  }

  lemma StepAligned(s: State, op: Op, s': State, result: int, size: nat)
    requires Valid(s, size) && Proper(s, op) && Next(s, op, s', result, size) && LiveAligned(s.pool) && Aligned(size)
    ensures LiveAligned(s'.pool)
    ensures !op.Deallocate? && result >= 0 ==> Aligned(result)
  {
    match op
    case Allocate(bytes) =>
      var required := ForwardSize(bytes);
      if !NoFit(s.pool, required) {
        var i: nat :| TakesFront(s, required, i, s', result);
        TakenAligned(s, required, i, s', result, size);
      }
    case BackwardAllocate(bytes) =>
      var required := AlignSize(bytes);
      if !NoFit(s.pool, required) {
        var i: nat :| TakesBack(s, required, i, s', result);
        TakenAligned(s, required, i, s', result, size);
      }
    case Deallocate(addr) =>
      if Keyed(s.pool, addr) {
        var i: nat :| Releases(s, i, s', size) && s.pool[i].addr == addr;
        LiveAround(s.pool, i);
      }
  }

  lemma {:induction false} RunLiveAligned(r: Run, size: nat, k: nat)
    requires IsRun(r, size) && Aligned(size) && k <= |r.ops|
    ensures LiveAligned(r.states[k].pool)
  {
    if k > 0 {
      RunLiveAligned(r, size, k - 1);
      RunKeepsInvariant(r, size, k - 1);
      StepAligned(r.states[k - 1], r.ops[k - 1], r.states[k], r.results[k - 1], size);
    } else {
      LiveOne(Node(0, size, 0));
    }
  }

  /** Operation `k` of the run handed out a block. */
  ghost predicate HandsOut(r: Run, k: nat) {
    k < |r.ops| && k < |r.results| && !r.ops[k].Deallocate? && r.results[k] >= 0
  }

  /** No block fits in a memory smaller than the alignment. */
  lemma TooSmall(s: State, op: Op, s': State, result: int, size: nat)
    requires Valid(s, size) && Proper(s, op) && !op.Deallocate? && Next(s, op, s', result, size) && size < MEMORY_ALIGNMENT
    ensures result == -1
  {
    var required := if op.Allocate? then ForwardSize(op.bytes) else AlignSize(op.bytes);
    assert required >= MEMORY_ALIGNMENT;
    forall i | 0 <= i < |s.pool|
      ensures !Fits(s.pool[i], required)
    {
      TiledOrder(s.pool, 0, size, i, i + 1);
    }
  }

  /** The first backward allocation in a memory of unaligned size. */
  lemma UnalignedRun(size: nat) returns (r: Run)
    requires MEMORY_ALIGNMENT <= size < WORD_MODULUS - 1 && !Aligned(size)
    ensures IsRun(r, size) && HandsOut(r, 0) && !Aligned(r.results[0])
  {
    var s := Initial(size);
    var s' := State(CarveBack(s.pool, 0, MEMORY_ALIGNMENT), MEMORY_ALIGNMENT);
    assert AlignSize(1) == MEMORY_ALIGNMENT;
    assert Fits(s.pool[0], MEMORY_ALIGNMENT);
    assert TakesBack(s, MEMORY_ALIGNMENT, 0, s', size - MEMORY_ALIGNMENT);
    r := Run([s, s'], [BackwardAllocate(1)], [size - MEMORY_ALIGNMENT]);
  }

  /** Every address handed out in every run is aligned if and only if the memory size is, or the
      memory is too small for any block. */
  lemma AlignedExact(size: nat)
    requires 0 < size < WORD_MODULUS - 1
    ensures (forall r, k: nat :: IsRun(r, size) && HandsOut(r, k) ==> Aligned(r.results[k]))
            <==> Aligned(size) || size < MEMORY_ALIGNMENT
  {
    if Aligned(size) || size < MEMORY_ALIGNMENT {
      forall r, k: nat | IsRun(r, size) && HandsOut(r, k)
        ensures Aligned(r.results[k])
      {
        RunKeepsInvariant(r, size, k);
        if size < MEMORY_ALIGNMENT {
          TooSmall(r.states[k], r.ops[k], r.states[k + 1], r.results[k], size);
        } else {
          RunLiveAligned(r, size, k);
          StepAligned(r.states[k], r.ops[k], r.states[k + 1], r.results[k], size);
        }
      }
    } else {
      var r := UnalignedRun(size);
    }
  }
}
