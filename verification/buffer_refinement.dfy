/**
 The steps of the buffer machine are those of a task's own methods: a request that takes its
 buffers one by one takes what `AcquireAllBuffers` takes, and returning them one by one leaves
 what `ReleaseAllBuffers` leaves.
 */
module BufferRefinement {
  import opened Common
  import opened BufferPool
  import opened BufferLifecycle

  /** The free lists of a task in the order in which buffers are taken. */
  function PoolLists(npu: bool, l: Lists): seq<seq<Ptr>> {
    if npu then [l.encodedInput, l.output, l.encodedOutput] else [l.output]
  }

  /** The buffers taken, by their use. */
  function SetOf(npu: bool, held: seq<Ptr>): BufferSet
    requires |held| == if npu then 3 else 1
  {
    if npu then BufferSet(Some(held[0]), Some(held[1]), Some(held[2])) else BufferSet(None, Some(held[0]), None)
  }

  /** The pools of task `t` in the machine are the free lists `l`. */
  ghost predicate Shows(s: Setting, st: State, t: nat, l: Lists) {
    && t < |s.npu| && (!s.npu[t] ==> l.encodedInput == [] && l.encodedOutput == [])
    && forall k: nat :: k < |PoolLists(s.npu[t], l)| ==> Pool(t, k) in st.free && st.free[Pool(t, k)] == PoolLists(s.npu[t], l)[k]
  }

  /** The machine has one pool for each pool of the task. */
  lemma KindsArePools(s: Setting, t: nat, task: Task, l: Lists)
    requires t < |s.npu| && task.Shaped() && task.npu == s.npu[t]
    ensures Kinds(s, t) == |task.Pools()| == |PoolLists(s.npu[t], l)|
  {
    if task.npu {
      var a: FixedSizeBuffer, b, c: FixedSizeBuffer := task.encodedInput, task.output, task.encodedOutput;
      assert task.Pools() == {a} + {b} + {c};
      assert |{a} + {b}| == 2;
    }
  }

  /** A request is equipped if and only if it holds a buffer of each of these pools. */
  lemma EquippedHoldsAll(s: Setting, job: Job, t: nat, l: Lists)
    requires t < |s.npu| && t < |job.held| && |job.held[t]| <= Kinds(s, t)
    ensures Equipped(s, job, t) <==> forall k: nat :: k < |PoolLists(s.npu[t], l)| ==> Holds(job, Pool(t, k))
  {
    if forall k: nat :: k < |PoolLists(s.npu[t], l)| ==> Holds(job, Pool(t, k)) {
      assert Holds(job, Pool(t, |PoolLists(s.npu[t], l)| - 1));
    }
  }

  /** One take: the top of the next pool. */
  lemma TakeStep(s: Setting, st: State, j: nat, t: nat) returns (next: State)
    requires j < |st.jobs| && Acquiring(s, st.jobs[j], t)
    requires Wanted(st.jobs[j], t) in st.free && st.free[Wanted(st.jobs[j], t)] != []
    ensures var p := Wanted(st.jobs[j], t);
            && Leads(s, st, Acquire(j, t), next)
            && next.free == st.free[p := Rest(st.free[p])]
            && next.jobs == st.jobs[j := Took(st.jobs[j], t, Top(st.free[p]).value)]
  {
    next := Apply(s, st, Acquire(j, t));
  }

  /** Nothing but the request for `t` of job `j` and the pools of `t` differs. */
  ghost predicate OnlyTask(st: State, st': State, j: nat, t: nat) {
    && |st'.jobs| == |st.jobs| && (forall i :: 0 <= i < |st.jobs| && i != j ==> st'.jobs[i] == st.jobs[i])
    && (forall p: Pool :: p.task != t ==> (p in st'.free <==> p in st.free) && (p in st.free ==> st'.free[p] == st.free[p]))
  }

  /** A request that takes a buffer from each pool of a CPU task. */
  lemma AcquireCpu(s: Setting, st: State, j: nat, t: nat, l: Lists) returns (end: State)
    requires t < |s.npu| && !s.npu[t] && Shows(s, st, t, l) && l.output != []
    requires j < |st.jobs| && Acquiring(s, st.jobs[j], t) && st.jobs[j].held[t] == []
    ensures Runs(s, st, [Acquire(j, t)], end) && OnlyTask(st, end, j, t) && Shows(s, end, t, Rests(l))
    ensures t < |end.jobs[j].held| && |end.jobs[j].held[t]| == 1 && SetOf(false, end.jobs[j].held[t]) == Tops(l)
  {
    assert PoolLists(false, l)[0] == l.output;
    end := TakeStep(s, st, j, t);
    RunFirst(s, st, Acquire(j, t), end, [], end);
    assert [Acquire(j, t)] + [] == [Acquire(j, t)];
  }

  /** Likewise of an NPU task, in the fixed order. */
  lemma AcquireNpu(s: Setting, st: State, j: nat, t: nat, l: Lists) returns (end: State)
    requires t < |s.npu| && s.npu[t] && Shows(s, st, t, l) && l.encodedInput != [] && l.output != [] && l.encodedOutput != []
    requires j < |st.jobs| && Acquiring(s, st.jobs[j], t) && st.jobs[j].held[t] == []
    ensures Runs(s, st, [Acquire(j, t)] + ([Acquire(j, t)] + ([Acquire(j, t)] + [])), end) && OnlyTask(st, end, j, t)
    ensures Shows(s, end, t, Rests(l))
    ensures t < |end.jobs[j].held| && |end.jobs[j].held[t]| == 3 && SetOf(true, end.jobs[j].held[t]) == Tops(l)
  {
    var e := Acquire(j, t);
    assert PoolLists(true, l)[0] == l.encodedInput && PoolLists(true, l)[1] == l.output && PoolLists(true, l)[2] == l.encodedOutput;
    var st1 := TakeStep(s, st, j, t);
    var st2 := TakeStep(s, st1, j, t);
    end := TakeStep(s, st2, j, t);
    assert end.free[Pool(t, 0)] == Rest(l.encodedInput) && end.free[Pool(t, 1)] == Rest(l.output) && end.free[Pool(t, 2)] == Rest(l.encodedOutput);
    assert Runs(s, end, [], end);
    RunFirst(s, st2, e, end, [], end);
    RunFirst(s, st1, e, st2, [e] + [], end);
    RunFirst(s, st, e, st1, [e] + ([e] + []), end);
  }

  /** Nothing can be taken of a set unless every pool has a buffer: if the steps are possible, no
      list of the task was empty. */
  lemma AcquireNeedsAll(s: Setting, st: State, j: nat, t: nat, l: Lists)
    requires t < |s.npu| && s.npu[t] && Shows(s, st, t, l) && j < |st.jobs| && Acquiring(s, st.jobs[j], t) && st.jobs[j].held[t] == []
    requires CanRun(s, st, [Acquire(j, t)] + ([Acquire(j, t)] + ([Acquire(j, t)] + [])))
    ensures l.encodedInput != [] && l.output != [] && l.encodedOutput != []
  {
    var e := Acquire(j, t);
    assert PoolLists(true, l)[0] == l.encodedInput && PoolLists(true, l)[1] == l.output && PoolLists(true, l)[2] == l.encodedOutput;
    assert ([e] + ([e] + ([e] + [])))[1..] == [e] + ([e] + []) && ([e] + ([e] + []))[1..] == [e] + [];
    assert Enabled(s, st, e);
    var st1 := Apply(s, st, e);
    assert CanRun(s, st1, [e] + ([e] + [])) && Enabled(s, st1, e);
    assert st1.free[Pool(t, 1)] == st.free[Pool(t, 1)] && st1.free[Pool(t, 2)] == st.free[Pool(t, 2)];
    var st2 := Apply(s, st1, e);
    assert CanRun(s, st2, [e] + []) && Enabled(s, st2, e);
    assert st2.free[Pool(t, 2)] == st.free[Pool(t, 2)];
  }

  // ----- Returning -----

  /** The job is about to return the buffers of its request for `t`, of which it holds `held`. */
  ghost predicate Returning(st: State, j: nat, t: nat, held: seq<Ptr>) {
    && j < |st.jobs| && InReleaseLoop(st.jobs[j]) && Current(st.jobs[j]) == t
    && t < |st.jobs[j].held| && st.jobs[j].held[t] == held
  }

  /** One return: the last buffer taken goes back to its pool. */
  lemma GiveStep(s: Setting, st: State, j: nat, t: nat, held: seq<Ptr>) returns (next: State)
    requires Returning(st, j, t, held) && held != [] && Pool(t, |held| - 1) in st.free
    ensures var p, rest := Pool(t, |held| - 1), held[..|held| - 1];
            && Leads(s, st, Release(j), next)
            && next.free == st.free[p := Returned(st.free[p], Some(held[|held| - 1]))]
            && |next.jobs| == |st.jobs| && (forall i :: 0 <= i < |st.jobs| && i != j ==> next.jobs[i] == st.jobs[i])
            && (rest != [] ==> Returning(next, j, t, rest))
            && t < |next.jobs[j].held| && next.jobs[j].held[t] == rest
  {
    next := Apply(s, st, Release(j));
  }

  /** Returning the set of a CPU request. */
  lemma ReleaseCpu(s: Setting, st: State, j: nat, t: nat, l: Lists, held: seq<Ptr>) returns (end: State)
    requires t < |s.npu| && !s.npu[t] && Shows(s, st, t, l) && |held| == 1 && Returning(st, j, t, held)
    ensures Runs(s, st, [Release(j)], end) && OnlyTask(st, end, j, t) && Shows(s, end, t, AllReturned(l, SetOf(false, held)))
    ensures t < |end.jobs[j].held| && end.jobs[j].held[t] == []
  {
    assert PoolLists(false, l)[0] == l.output;
    end := GiveStep(s, st, j, t, held);
    RunFirst(s, st, Release(j), end, [], end);
    assert [Release(j)] + [] == [Release(j)];
  }

  /** Returning the set of an NPU request, in reverse order. */
  lemma ReleaseNpu(s: Setting, st: State, j: nat, t: nat, l: Lists, held: seq<Ptr>) returns (end: State)
    requires t < |s.npu| && s.npu[t] && Shows(s, st, t, l) && |held| == 3 && Returning(st, j, t, held)
    ensures Runs(s, st, [Release(j)] + ([Release(j)] + ([Release(j)] + [])), end) && OnlyTask(st, end, j, t)
    ensures Shows(s, end, t, AllReturned(l, SetOf(true, held)))
    ensures t < |end.jobs[j].held| && end.jobs[j].held[t] == []
  {
    var e := Release(j);
    assert PoolLists(true, l)[0] == l.encodedInput && PoolLists(true, l)[1] == l.output && PoolLists(true, l)[2] == l.encodedOutput;
    var st1 := GiveStep(s, st, j, t, held);
    var st2 := GiveStep(s, st1, j, t, held[..2]);
    end := GiveStep(s, st2, j, t, held[..2][..1]);
    var r := AllReturned(l, SetOf(true, held));
    assert end.free[Pool(t, 0)] == r.encodedInput && end.free[Pool(t, 1)] == r.output && end.free[Pool(t, 2)] == r.encodedOutput;
    assert Runs(s, end, [], end);
    RunFirst(s, st2, e, end, [], end);
    RunFirst(s, st1, e, st2, [e] + [], end);
    RunFirst(s, st, e, st1, [e] + ([e] + []), end);
  }
}
