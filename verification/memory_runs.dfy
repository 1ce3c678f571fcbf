/**
 Whole runs of the device-memory allocator: any mix of forward allocations, backward
 allocations and frees by callers that respect `Proper`.
 */
module MemoryRuns {
  import opened MemoryPool
  import opened MemorySteps

  datatype Run = Run(states: seq<State>, ops: seq<Op>, results: seq<int>)

  ghost predicate IsRun(r: Run, size: nat) {
    && 0 < size < WORD_MODULUS - 1
    && |r.states| == |r.ops| + 1 && |r.results| == |r.ops|
    && r.states[0] == Initial(size)
    && forall k :: 0 <= k < |r.ops| ==>
                     Proper(r.states[k], r.ops[k]) && Next(r.states[k], r.ops[k], r.states[k + 1], r.results[k], size)
  }

  /** What the callers hold: each address handed out and not yet given back, with the
      number of bytes asked for. */
  ghost function Held(ops: seq<Op>, results: seq<int>): map<int, nat>
    requires |results| == |ops|
  {
    if ops == [] then map[]
    else
      var last := |ops| - 1;
      var before := Held(ops[..last], results[..last]);
      match ops[last]
      case Deallocate(a) => before - {a}
      case _ => if results[last] < 0 then before else before[results[last] := ops[last].bytes]
  }

  /** The live blocks are the held addresses, each of exactly the size set aside for its request. */
  ghost predicate Serves(p: Pool, held: map<int, nat>) {
    && (forall n :: n in Live(p) ==> n.addr in held && SetAside(held[n.addr], n.size))
    && (forall a :: a in held ==> exists n :: n in Live(p) && n.addr == a)
  }

  lemma ServesAllocate(s: State, op: Op, s': State, result: int, held: map<int, nat>, size: nat)
    requires Valid(s, size) && !op.Deallocate? && Proper(s, op) && Next(s, op, s', result, size)
    requires Serves(s.pool, held)
    ensures Valid(s', size)
    ensures Serves(s'.pool, if result < 0 then held else held[result := op.bytes])
  {
    if op.Allocate? {
      AllocateKeeps(s, op.bytes, s', result, size);
    } else {
      BackwardKeeps(s, op.bytes, s', result, size);
    }
    if result >= 0 {
      var i, busy := TakenBlock(s, op, s', result, size);
      LiveAround(s.pool, i);
      ServesTaken(s.pool, s'.pool, i, busy, held, op.bytes, size);
    }
  }

  /** The live blocks are those of before and the one taken. */
  lemma ServesTaken(p: Pool, p': Pool, i: nat, busy: Node, held: map<int, nat>, bytes: nat, size: nat)
    requires i < |p| && Tiled(p', 0, size) && Live(p) == Live(p[..i]) + [] + Live(p[i + 1..])
    requires Live(p') == Live(p[..i]) + [busy] + Live(p[i + 1..]) && SetAside(bytes, busy.size)
    requires Serves(p, held)
    ensures Serves(p', held[busy.addr := bytes])
  {
    var held' := held[busy.addr := bytes];
    forall n | n in Live(p')
      ensures n.addr in held' && SetAside(held'[n.addr], n.size)
    {
      if n != busy {
        assert n in Live(p);
        LiveApart(p', n, busy, size);
      }
    }
    forall a | a in held'
      ensures exists n :: n in Live(p') && n.addr == a
    {
      if a == busy.addr {
        assert busy in Live(p');
      } else {
        var n :| n in Live(p) && n.addr == a;
        assert n in Live(p');
      }
    }
  }

  lemma LiveApart(p: Pool, n: Node, m: Node, size: nat)
    requires Tiled(p, 0, size) && n in Live(p) && m in Live(p) && n != m
    ensures n.addr != m.addr
    ensures n.Limit() <= m.addr || m.Limit() <= n.addr
  {
    LiveMember(p, n);
    LiveMember(p, m);
    var i :| 0 <= i < |p| && p[i] == n;
    var j :| 0 <= j < |p| && p[j] == m;
    TilesDisjoint(p, 0, size, i, j);
    TiledMember(p, 0, size, n);
    TiledMember(p, 0, size, m);
  }

  lemma ServesFree(s: State, addr: nat, s': State, held: map<int, nat>, size: nat)
    requires Valid(s, size) && Proper(s, Deallocate(addr)) && DeallocateStep(s, addr, s', size)
    requires Serves(s.pool, held)
    ensures Valid(s', size) && Serves(s'.pool, held - {addr})
  {
    DeallocateKeeps(s, addr, s', size);
    if Keyed(s.pool, addr) {
      var i: nat :| Releases(s, i, s', size) && s.pool[i].addr == addr;
      var b := s.pool[i];
      assert b in s.pool;
      LiveAround(s.pool, i);
      forall n | n in Live(s.pool) && n != b
        ensures n.addr != addr && n in Live(s'.pool)
      {
        LiveApart(s.pool, n, b, size);
      }
      forall n | n in Live(s'.pool)
        ensures n in Live(s.pool) && n.addr != addr
      {
        DropsOne(s.pool, i, n, size);
      }
      forall a | a in held - {addr}
        ensures exists n :: n in Live(s'.pool) && n.addr == a
      {
        var n :| n in Live(s.pool) && n.addr == a;
        assert n in Live(s'.pool);
      }
    } else {
      forall n | n in Live(s.pool)
        ensures n.addr != addr
      {
        LiveMember(s.pool, n);
      }
    }
  }

  lemma DropsOne(p: Pool, i: nat, n: Node, size: nat)
    requires Tiled(p, 0, size) && i < |p| && n in Live(p[..i]) + Live(p[i + 1..])
    ensures n in Live(p) && n.addr != p[i].addr
  {
    LiveAround(p, i);
    LiveMember(p[..i], n);
    LiveMember(p[i + 1..], n);
    TiledSorted(p, 0, size);
    if n in p[..i] {
      var k :| 0 <= k < i && p[..i][k] == n;
      assert p[k] == n;
    } else {
      var k :| 0 <= k < |p[i + 1..]| && p[i + 1..][k] == n;
      assert p[i + 1 + k] == n;
    }
  }

  /** Safety over every run: after every operation the blocks tile the memory, no two
      neighbours are free, the used count is the sum of the live sizes, and the live blocks
      are exactly what callers hold, each the least aligned size that holds what was requested. */
  lemma {:induction false} RunKeepsInvariant(r: Run, size: nat, k: nat)
    requires IsRun(r, size) && k <= |r.ops|
    ensures Valid(r.states[k], size)
    ensures Serves(r.states[k].pool, Held(r.ops[..k], r.results[..k]))
  {
    if k == 0 {
      InitialValid(size);
    } else {
      RunKeepsInvariant(r, size, k - 1);
      var op, result := r.ops[k - 1], r.results[k - 1];
      assert r.ops[..k][..k - 1] == r.ops[..k - 1] && r.results[..k][..k - 1] == r.results[..k - 1];
      var held := Held(r.ops[..k - 1], r.results[..k - 1]);
      assert Next(r.states[k - 1], op, r.states[k - 1 + 1], result, size);
      if op.Deallocate? {
        ServesFree(r.states[k - 1], op.addr, r.states[k], held, size);
      } else {
        ServesAllocate(r.states[k - 1], op, r.states[k], result, held, size);
      }
    }
  }

  /** Over every run, blocks handed out and still held never overlap. */
  lemma RunHandsOutDisjointBlocks(r: Run, size: nat, k: nat, n: Node, m: Node)
    requires IsRun(r, size) && k <= |r.ops|
    requires n in Live(r.states[k].pool) && m in Live(r.states[k].pool) && n != m
    ensures n.Limit() <= m.addr || m.Limit() <= n.addr
  {
    RunKeepsInvariant(r, size, k);
    LiveApart(r.states[k].pool, n, m, size);
  }

  /** Two runs that leave the same blocks live leave the same memory, whatever was
      allocated and freed on the way and in whatever order. */
  lemma RunsConverge(r: Run, t: Run, size: nat)
    requires IsRun(r, size) && IsRun(t, size)
    requires Live(r.states[|r.ops|].pool) == Live(t.states[|t.ops|].pool)
    ensures r.states[|r.ops|] == t.states[|t.ops|]
  {
    RunKeepsInvariant(r, size, |r.ops|);
    RunKeepsInvariant(t, size, |t.ops|);
    SameLiveSameState(r.states[|r.ops|], t.states[|t.ops|], size);
  }

  lemma ServesSomeone(p: Pool, held: map<int, nat>)
    requires Serves(p, held)
    ensures Live(p) != [] ==> held != map[]
  {
    if Live(p) != [] {
      assert Live(p)[0] in Live(p);
    }
  }

  /** A run in which everything was given back ends where it began. */
  lemma RunReturnsToStart(r: Run, size: nat)
    requires IsRun(r, size) && Held(r.ops, r.results) == map[]
    ensures r.states[|r.ops|] == Initial(size)
  {
    var k := |r.ops|;
    RunKeepsInvariant(r, size, k);
    assert r.ops[..k] == r.ops && r.results[..k] == r.results;
    ServesSomeone(r.states[k].pool, Held(r.ops, r.results));
    AllFreedIsInitial(r.states[k], size);
  }
}
