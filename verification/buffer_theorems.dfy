/**
 Waiting, deadlock and return of buffers, over every run.
 */
module BufferTheorems {
  import opened Common
  import opened BufferPool
  import opened BufferLifecycle

  ghost predicate Reachable(s: Setting, st: State) {
    WellSet(s) && exists st0, es :: Start(s, st0) && CanRun(s, st0, es) && After(s, st0, es) == st
  }

  lemma ReachableInv(s: Setting, st: State)
    requires Reachable(s, st)
    ensures Inv(s, st)
  {
    var st0, es :| Start(s, st0) && CanRun(s, st0, es) && After(s, st0, es) == st;
    StartInv(s, st0);
    RunKeeps(s, st0, es);
  }

  // ----- Free plus held is the full set -----

  /** The free list has no duplicates and, with what the jobs hold, makes up the pool; no
      buffer is held twice or while free. */
  lemma FreePlusHeld(s: Setting, st: State, p: Pool)
    requires Reachable(s, st) && IsPool(s, p)
    ensures p in st.free && p in s.full
    ensures multiset(st.free[p]) + HeldAt(st.jobs, p) == multiset(s.full[p])
    ensures Sound(s.full[p], st.free[p])
    ensures |st.free[p]| + |HeldAt(st.jobs, p)| == s.size
    ensures forall i, j :: 0 <= i < j < |st.jobs| && Holds(st.jobs[i], p) && Holds(st.jobs[j], p) ==>
                             st.jobs[i].held[p.task][p.kind] != st.jobs[j].held[p.task][p.kind]
    ensures forall j :: 0 <= j < |st.jobs| && Holds(st.jobs[j], p) ==> st.jobs[j].held[p.task][p.kind] !in st.free[p]
  {
    ReachableInv(s, st);
    assert Conserved(s, st, p);
    ConservedSound(s, st, p);
    forall j | 0 <= j < |st.jobs| && Holds(st.jobs[j], p)
      ensures st.jobs[j].held[p.task][p.kind] !in st.free[p]
    {
      HeldNotFree(s, st, j, p);
    }
    forall i, j | 0 <= i < j < |st.jobs| && Holds(st.jobs[i], p) && Holds(st.jobs[j], p)
      ensures st.jobs[i].held[p.task][p.kind] != st.jobs[j].held[p.task][p.kind]
    {
      var b := st.jobs[i].held[p.task][p.kind];
      HeldTwice(st.jobs, i, j, p);
      DistinctOnce(s.full[p], b);
      assert multiset(s.full[p])[b] == multiset(st.free[p])[b] + HeldAt(st.jobs, p)[b];
    }
    assert |multiset(st.free[p])| == |st.free[p]| && |multiset(s.full[p])| == |s.full[p]|;
  }

  lemma {:induction false} HeldTwice(jobs: seq<Job>, i: nat, j: nat, p: Pool)
    requires i < j < |jobs| && Holds(jobs[i], p) && Holds(jobs[j], p)
    ensures jobs[i].held[p.task][p.kind] == jobs[j].held[p.task][p.kind] ==> HeldAt(jobs, p)[jobs[i].held[p.task][p.kind]] >= 2
  {
    var n := |jobs| - 1;
    if j < n {
      HeldTwice(jobs[..n], i, j, p);
    } else {
      HeldIn(jobs[..n], i, p);
    }
  }

  lemma ConservedSound(s: Setting, st: State, p: Pool)
    requires Conserved(s, st, p) && Distinct(s.full[p])
    ensures Sound(s.full[p], st.free[p])
  {
    var free := st.free[p];
    forall i | 0 <= i < |free|
      ensures free[i] in s.full[p]
    {
      assert multiset(s.full[p])[free[i]] >= multiset(free)[free[i]] > 0;
    }
    forall i, j | 0 <= i < j < |free|
      ensures free[i] != free[j]
    {
      TwiceInList(free, i, j);
      DistinctOnce(s.full[p], free[i]);
      assert multiset(free)[free[i]] <= multiset(s.full[p])[free[i]];
    }
  }

  lemma TwiceInList(free: seq<Ptr>, i: int, j: int)
    requires 0 <= i < j < |free|
    ensures free[i] == free[j] ==> multiset(free)[free[i]] >= 2
  {
    assert free == free[..j] + [free[j]] + free[j + 1..];
    assert free[..j][i] in multiset(free[..j]);
  }

  /** A buffer returned belongs to its pool and is not free: neither guard of the release fires. */
  lemma ReleaseIsGenuine(s: Setting, st: State, j: nat)
    requires Reachable(s, st) && Enabled(s, st, Release(j))
    ensures var p := Source(st.jobs[j]); p in s.full && Last(st.jobs[j]) in s.full[p] && Last(st.jobs[j]) !in st.free[p]
  {
    ReachableInv(s, st);
    ReleaseKeeps(s, st.jobs[j]);
    HeldNotFree(s, st, j, Source(st.jobs[j]));
  }

  /** A job in its release loop can always take its next step. */
  lemma ReleaseNeverWaits(s: Setting, st: State, j: nat)
    requires WellSet(s) && Inv(s, st) && j < |st.jobs| && InReleaseLoop(st.jobs[j])
    ensures Enabled(s, st, Release(j))
  {
    ReleaseKeeps(s, st.jobs[j]);
    assert Conserved(s, st, Source(st.jobs[j]));
  }

  // ----- Who can wait -----

  lemma PoolCount(s: Setting, st: State, p: Pool)
    requires WellSet(s) && Inv(s, st) && IsPool(s, p)
    ensures p in st.free && |HeldAt(st.jobs, p)| <= s.size
    ensures st.free[p] == [] <==> |HeldAt(st.jobs, p)| == s.size
  {
    assert Conserved(s, st, p);
    assert |multiset(st.free[p])| == |st.free[p]| && |multiset(s.full[p])| == |s.full[p]|;
    assert |multiset(st.free[p]) + HeldAt(st.jobs, p)| == |multiset(st.free[p])| + |HeldAt(st.jobs, p)|;
  }

  /** Only the first acquisition of a request can wait: one that holds a buffer finds the rest free. */
  lemma OnlyFirstWaits(s: Setting, st: State, j: nat, t: nat)
    requires Reachable(s, st) && j < |st.jobs| && Acquiring(s, st.jobs[j], t) && st.jobs[j].held[t] != []
    ensures Enabled(s, st, Acquire(j, t))
  {
    ReachableInv(s, st);
    LaterAcquireEnabled(s, st, j, t);
  }

  lemma LaterAcquireEnabled(s: Setting, st: State, j: nat, t: nat)
    requires WellSet(s) && Inv(s, st) && j < |st.jobs| && Acquiring(s, st.jobs[j], t) && st.jobs[j].held[t] != []
    ensures Enabled(s, st, Acquire(j, t))
  {
    var p := Wanted(st.jobs[j], t);
    var q := Pool(t, p.kind - 1);
    assert JobOk(s, st.jobs[j]);
    CountMoreHolders(st.jobs, p, q, j);
    PoolCount(s, st, p);
    PoolCount(s, st, q);
  }

  /** All start loops visit the same head first. */
  ghost predicate SameFirst(st: State, first: nat) {
    forall j :: 0 <= j < |st.jobs| ==> st.jobs[j].visit != [] && st.jobs[j].visit[0] == first
  }

  /** A running job with a request besides the first head holds a buffer of the first head. */
  lemma HoldsFirst(s: Setting, job: Job, t: nat)
    requires JobOk(s, job) && job.phase.Running? && t != job.visit[0] && t in job.order
    ensures Holds(job, Pool(job.visit[0], 0))
  {
    assert Equipped(s, job, job.visit[0]);
  }

  /** The holders of `p` that are in their release loop. */
  ghost predicate SomeHolderReleases(st: State, p: Pool) {
    exists j :: 0 <= j < |st.jobs| && Holds(st.jobs[j], p) && InReleaseLoop(st.jobs[j])
  }

  lemma HolderPhase(s: Setting, job: Job, p: Pool)
    requires JobOk(s, job) && Holds(job, p)
    ensures InReleaseLoop(job) || (job.phase.Running? && p.task in job.order)
  {
    if job.phase.Releasing? {
      assert p.task in job.order;
      var x :| 0 <= x < |job.order| && job.order[x] == p.task;
      assert x >= job.phase.next;
    }
  }

  lemma BelowFirstFree(s: Setting, st: State, first: nat, j: nat, t: nat)
    requires WellSet(s) && Inv(s, st) && SameFirst(st, first)
    requires j < |st.jobs| && t != first && Acquiring(s, st.jobs[j], t) && st.jobs[j].held[t] == []
    ensures Enabled(s, st, Acquire(j, t)) || SomeHolderReleases(st, Pool(t, 0))
  {
    var p, q := Pool(t, 0), Pool(first, 0);
    assert JobOk(s, st.jobs[j]);
    if !SomeHolderReleases(st, p) {
      forall i | 0 <= i < |st.jobs| && Holds(st.jobs[i], p)
        ensures Holds(st.jobs[i], q)
      {
        HolderPhase(s, st.jobs[i], p);
        HoldsFirst(s, st.jobs[i], t);
      }
      HoldsFirst(s, st.jobs[j], t);
      CountMoreHolders(st.jobs, p, q, j);
      PoolCount(s, st, p);
      PoolCount(s, st, q);
    }
  }

  /** A request besides the first head that must wait waits for a job already returning its buffers. */
  lemma WaitBelowHead(s: Setting, st: State, first: nat, j: nat, t: nat)
    requires Reachable(s, st) && SameFirst(st, first)
    requires j < |st.jobs| && t != first && Acquiring(s, st.jobs[j], t) && !Enabled(s, st, Acquire(j, t))
    ensures SomeHolderReleases(st, Wanted(st.jobs[j], t))
    ensures exists i :: 0 <= i < |st.jobs| && Holds(st.jobs[i], Wanted(st.jobs[j], t)) && Enabled(s, st, Release(i))
  {
    ReachableInv(s, st);
    if st.jobs[j].held[t] == [] {
      BelowFirstFree(s, st, first, j, t);
      var i :| 0 <= i < |st.jobs| && Holds(st.jobs[i], Pool(t, 0)) && InReleaseLoop(st.jobs[i]);
      ReleaseNeverWaits(s, st, i);
    } else {
      LaterAcquireEnabled(s, st, j, t);
    }
  }

  // ----- No deadlock -----

  ghost predicate NoneReleases(st: State) {
    forall i :: 0 <= i < |st.jobs| ==> !InReleaseLoop(st.jobs[i])
  }

  /** While no job is returning buffers, a dispatched request that lacks some can take one,
      unless it is a first head that holds none. */
  lemma AcquiringMoves(s: Setting, st: State, first: nat, j: nat, t: nat)
    requires WellSet(s) && Inv(s, st) && SameFirst(st, first) && NoneReleases(st) && j < |st.jobs| && Acquiring(s, st.jobs[j], t)
    ensures Enabled(s, st, Acquire(j, t)) || (t == first && st.jobs[j].held[t] == [])
  {
    if st.jobs[j].held[t] != [] {
      LaterAcquireEnabled(s, st, j, t);
    } else if t != first {
      BelowFirstFree(s, st, first, j, t);
    }
  }

  /** The first head of the start loop that lacks buffers, or all of them have theirs. */
  lemma NextHead(s: Setting, job: Job) returns (i: nat)
    ensures i <= |job.visit| && EquippedBefore(s, job, i)
    ensures i < |job.visit| ==> !Equipped(s, job, job.visit[i])
  {
    i := 0;
    while i < |job.visit| && Equipped(s, job, job.visit[i])
      invariant i <= |job.visit| && EquippedBefore(s, job, i)
    {
      i := i + 1;
    }
  }

  /** Is waiting for the first head's first buffer. */
  ghost predicate WaitsForFirst(s: Setting, st: State, first: nat, j: nat) {
    j < |st.jobs| && Acquiring(s, st.jobs[j], first) && st.jobs[j].held[first] == []
  }

  /** A running job can move while no job is returning buffers, unless it waits for the first head. */
  lemma RunningMoves(s: Setting, st: State, first: nat, j: nat) returns (e: Event)
    requires WellSet(s) && Inv(s, st) && SameFirst(st, first) && NoneReleases(st) && j < |st.jobs| && st.jobs[j].phase.Running?
    ensures Enabled(s, st, e) || (e == Acquire(j, first) && WaitsForFirst(s, st, first, j))
  {
    var job := st.jobs[j];
    assert JobOk(s, job);
    var i := NextHead(s, job);
    if i < |job.visit| {
      e := HeadMoves(s, st, first, j, i);
    } else if forall t: nat :: t < |s.npu| ==> t in job.done {
      e := BeginRelease(j);
    } else {
      var t := FirstUndone(job.done, |s.npu|);
      e := TaskMoves(s, st, first, j, t);
    }
  }

  lemma HeadMoves(s: Setting, st: State, first: nat, j: nat, i: nat) returns (e: Event)
    requires WellSet(s) && Inv(s, st) && SameFirst(st, first) && NoneReleases(st) && j < |st.jobs| && st.jobs[j].phase.Running?
    requires i < |st.jobs[j].visit| && EquippedBefore(s, st.jobs[j], i) && !Equipped(s, st.jobs[j], st.jobs[j].visit[i])
    ensures Enabled(s, st, e) || (e == Acquire(j, first) && WaitsForFirst(s, st, first, j))
  {
    var job := st.jobs[j];
    var t := job.visit[i];
    assert JobOk(s, job) && IsHead(s, t);
    if t !in job.order {
      assert Turn(s, job, t);
      e := Dispatch(j, t);
    } else {
      AcquiringMoves(s, st, first, j, t);
      e := Acquire(j, t);
    }
  }

  /** The least undone task moves once all heads are equipped. */
  lemma TaskMoves(s: Setting, st: State, first: nat, j: nat, t: nat) returns (e: Event)
    requires WellSet(s) && Inv(s, st) && SameFirst(st, first) && NoneReleases(st) && j < |st.jobs| && st.jobs[j].phase.Running?
    requires EquippedBefore(s, st.jobs[j], |st.jobs[j].visit|)
    requires t < |s.npu| && t !in st.jobs[j].done && forall u: nat :: u < t ==> u in st.jobs[j].done
    ensures Enabled(s, st, e)
  {
    var job := st.jobs[j];
    assert JobOk(s, job);
    assert IsHead(s, t) ==> Equipped(s, job, t);
    if Equipped(s, job, t) {
      e := Complete(j, t);
      assert t in job.order;
    } else if t !in job.order {
      e := Dispatch(j, t);
    } else {
      assert t != first;
      AcquiringMoves(s, st, first, j, t);
      e := Acquire(j, t);
    }
  }

  lemma FirstUndone(done: set<nat>, n: nat) returns (t: nat)
    requires !forall t: nat :: t < n ==> t in done
    ensures t < n && t !in done && forall u: nat :: u < t ==> u in done
  {
    t := 0;
    while t < n && t in done
      invariant t <= n && forall u: nat :: u < t ==> u in done
    {
      t := t + 1;
    }
  }

  /** Unless every job has finished, some step is possible, if all start loops visit the same
      head first. */
  lemma NoDeadlock(s: Setting, st: State, first: nat) returns (e: Event)
    requires Reachable(s, st) && SameFirst(st, first) && exists j :: 0 <= j < |st.jobs| && !Finished(st.jobs[j])
    ensures Enabled(s, st, e)
  {
    ReachableInv(s, st);
    var j: nat :| j < |st.jobs| && !Finished(st.jobs[j]);
    assert JobOk(s, st.jobs[j]);
    if i: nat :| i < |st.jobs| && InReleaseLoop(st.jobs[i]) {
      ReleaseNeverWaits(s, st, i);
      return Release(i);
    }
    e := RunningMoves(s, st, first, j);
    if !Enabled(s, st, e) {
      e := FirstHolderMoves(s, st, first, j);
    }
  }

  /** If a first head waits, a holder of its pool, past its own first acquisition, moves. */
  lemma FirstHolderMoves(s: Setting, st: State, first: nat, j: nat) returns (e: Event)
    requires WellSet(s) && Inv(s, st) && SameFirst(st, first) && NoneReleases(st) && WaitsForFirst(s, st, first, j)
    requires !Enabled(s, st, Acquire(j, first))
    ensures Enabled(s, st, e)
  {
    assert JobOk(s, st.jobs[j]);
    PoolCount(s, st, Pool(first, 0));
    var i := SomeHolder(st.jobs, Pool(first, 0));
    HolderPhase(s, st.jobs[i], Pool(first, 0));
    e := RunningMoves(s, st, first, i);
  }

  // ----- Every run ends -----

  ghost function TaskWork(s: Setting, job: Job, t: nat): int
    requires t < |job.held|
  {
    if job.phase.Running? then
      (if t in job.order then 0 else 1) + (if t in job.done then 0 else 1) + 2 * Kinds(s, t) - |job.held[t]|
    else
      |job.held[t]|
  }

  ghost function WorkUpTo(s: Setting, job: Job, n: nat): int
    requires n <= |job.held|
  {
    if n == 0 then 0 else WorkUpTo(s, job, n - 1) + TaskWork(s, job, n - 1)
  }

  ghost function JobWork(s: Setting, job: Job): int {
    (if job.phase.Running? then 1 else 0) + WorkUpTo(s, job, |job.held|)
  }

  ghost function Work(s: Setting, jobs: seq<Job>): int {
    if jobs == [] then 0 else Work(s, jobs[..|jobs| - 1]) + JobWork(s, jobs[|jobs| - 1])
  }

  lemma {:induction false} WorkCompare(s: Setting, a: Job, b: Job, n: nat)
    requires n <= |a.held| && n <= |b.held|
    requires forall t: nat :: t < n ==> TaskWork(s, b, t) <= TaskWork(s, a, t)
    ensures WorkUpTo(s, b, n) <= WorkUpTo(s, a, n)
    ensures (exists t: nat :: t < n && TaskWork(s, b, t) < TaskWork(s, a, t)) ==> WorkUpTo(s, b, n) < WorkUpTo(s, a, n)
  {
    if n > 0 {
      WorkCompare(s, a, b, n - 1);
    }
  }

  lemma {:induction false} WorkPositive(s: Setting, job: Job, n: nat)
    requires n <= |job.held| && forall t :: 0 <= t < |job.held| ==> |job.held[t]| <= Kinds(s, t)
    ensures WorkUpTo(s, job, n) >= 0
  {
    if n > 0 {
      WorkPositive(s, job, n - 1);
    }
  }

  lemma {:induction false} TotalPositive(s: Setting, jobs: seq<Job>)
    requires forall j :: 0 <= j < |jobs| ==> Shaped(s, jobs[j])
    ensures Work(s, jobs) >= 0
  {
    if jobs != [] {
      var n := |jobs| - 1;
      TotalPositive(s, jobs[..n]);
      assert Shaped(s, jobs[n]);
      WorkPositive(s, jobs[n], |jobs[n].held|);
    }
  }

  lemma {:induction false} WorkUpdate(s: Setting, jobs: seq<Job>, j: nat, job: Job)
    requires j < |jobs|
    ensures Work(s, jobs[j := job]) == Work(s, jobs) - JobWork(s, jobs[j]) + JobWork(s, job)
  {
    var n := |jobs| - 1;
    if j == n {
      assert jobs[j := job][..n] == jobs[..n];
    } else {
      assert jobs[j := job][..n] == jobs[..n][j := job];
      WorkUpdate(s, jobs[..n], j, job);
    }
  }

  /** Each step lowers the work left in its job. */
  lemma JobStepWork(s: Setting, st: State, e: Event)
    requires WellSet(s) && Inv(s, st) && Enabled(s, st, e)
    ensures JobWork(s, Apply(s, st, e).jobs[e.job]) < JobWork(s, st.jobs[e.job])
  {
    var a, b := st.jobs[e.job], Apply(s, st, e).jobs[e.job];
    assert JobOk(s, a);
    if e.Release? {
      ReleaseKeeps(s, a);
      assert TaskWork(s, b, Current(a)) < TaskWork(s, a, Current(a));
    } else if !e.BeginRelease? {
      assert e.task in b.order;
      assert TaskWork(s, b, e.task) < TaskWork(s, a, e.task);
    }
    WorkCompare(s, a, b, |a.held|);
  }

  /** No run is longer than the work at its start. */
  lemma {:induction false} EveryRunEnds(s: Setting, st: State, es: seq<Event>)
    requires WellSet(s) && Inv(s, st) && CanRun(s, st, es)
    ensures |es| + Work(s, After(s, st, es).jobs) <= Work(s, st.jobs)
    ensures |es| <= Work(s, st.jobs)
    decreases |es|
  {
    if es != [] {
      var st' := Apply(s, st, es[0]);
      StepKeeps(s, st, es[0]);
      JobStepWork(s, st, es[0]);
      WorkUpdate(s, st.jobs, es[0].job, st'.jobs[es[0].job]);
      EveryRunEnds(s, st', es[1..]);
    }
    RunKeeps(s, st, es);
    TotalPositive(s, After(s, st, es).jobs);
  }

  // ----- Every buffer comes back -----

  /** Buffers taken from `p` during a run. */
  ghost function Acquired(s: Setting, st: State, es: seq<Event>, p: Pool): multiset<Ptr>
    requires CanRun(s, st, es)
    decreases |es|
  {
    if es == [] then multiset{} else AcquiredBy(s, st, es[0], p) + Acquired(s, Apply(s, st, es[0]), es[1..], p)
  }

  ghost function AcquiredBy(s: Setting, st: State, e: Event, p: Pool): multiset<Ptr>
    requires Enabled(s, st, e)
  {
    if e.Acquire? && Wanted(st.jobs[e.job], e.task) == p then multiset{Top(st.free[p]).value} else multiset{}
  }

  /** Buffers returned to `p` during a run. */
  ghost function GivenBack(s: Setting, st: State, es: seq<Event>, p: Pool): multiset<Ptr>
    requires CanRun(s, st, es)
    decreases |es|
  {
    if es == [] then multiset{} else GivenBackBy(s, st, es[0], p) + GivenBack(s, Apply(s, st, es[0]), es[1..], p)
  }

  ghost function GivenBackBy(s: Setting, st: State, e: Event, p: Pool): multiset<Ptr>
    requires Enabled(s, st, e)
  {
    if e.Release? && Source(st.jobs[e.job]) == p then multiset{Last(st.jobs[e.job])} else multiset{}
  }

  lemma StepBalance(s: Setting, st: State, e: Event, p: Pool)
    requires Enabled(s, st, e)
    ensures HeldAt(st.jobs, p) + AcquiredBy(s, st, e, p) == HeldAt(Apply(s, st, e).jobs, p) + GivenBackBy(s, st, e, p)
  {
    match e {
      case Acquire(j, t) => AcquireHeld(st, j, t, Top(st.free[Wanted(st.jobs[j], t)]).value, p);
      case Release(j) => ReleaseHeld(st, j, p);
      case _ =>
        QuietHeld(st, e.job, Apply(s, st, e).jobs[e.job], p);
    }
  }

  /** Taken plus held before equals held after plus returned. */
  lemma {:induction false} RunBalance(s: Setting, st: State, es: seq<Event>, p: Pool)
    requires CanRun(s, st, es)
    ensures HeldAt(st.jobs, p) + Acquired(s, st, es, p) == HeldAt(After(s, st, es).jobs, p) + GivenBack(s, st, es, p)
    decreases |es|
  {
    if es != [] {
      var st' := Apply(s, st, es[0]);
      StepBalance(s, st, es[0], p);
      RunBalance(s, st', es[1..], p);
      Chain(HeldAt(st.jobs, p), AcquiredBy(s, st, es[0], p), HeldAt(st'.jobs, p), GivenBackBy(s, st, es[0], p),
            Acquired(s, st', es[1..], p), HeldAt(After(s, st', es[1..]).jobs, p), GivenBack(s, st', es[1..], p));
    }
  }

  lemma Chain(h: multiset<Ptr>, a: multiset<Ptr>, h': multiset<Ptr>, r: multiset<Ptr>, a2: multiset<Ptr>, h'': multiset<Ptr>, r2: multiset<Ptr>)
    requires h + a == h' + r && h' + a2 == h'' + r2
    ensures h + (a + a2) == h'' + (r + r2)
  {
    assert h + (a + a2) == (h + a) + a2;
    assert (h' + r) + a2 == (h' + a2) + r;
    assert (h'' + r2) + r == h'' + (r + r2);
  }

  /** A run that can go no further has finished every job, has returned every buffer exactly
      as often as it was taken, and leaves every pool with all its buffers free. */
  lemma AllComeBack(s: Setting, st0: State, first: nat, es: seq<Event>, st: State, p: Pool)
    requires WellSet(s) && Start(s, st0) && SameFirst(st0, first) && CanRun(s, st0, es) && st == After(s, st0, es) && IsPool(s, p)
    requires forall e :: !Enabled(s, st, e)
    ensures |st.jobs| == |st0.jobs| && forall j :: 0 <= j < |st.jobs| ==> Finished(st.jobs[j])
    ensures Acquired(s, st0, es, p) == GivenBack(s, st0, es, p)
    ensures p in st.free && p in s.full && multiset(st.free[p]) == multiset(s.full[p])
  {
    assert Reachable(s, st);
    SameJobs(s, st0, es);
    QuietMeansFinished(s, st, first);
    ReachableInv(s, st);
    FinishedPoolFull(s, st, p);
    StartHoldsNothing(s, st0, p);
    BalancedRun(s, st0, es, st, p);
  }

  lemma StartHoldsNothing(s: Setting, st0: State, p: Pool)
    requires Start(s, st0)
    ensures HeldAt(st0.jobs, p) == multiset{}
  {
    NoHolders(st0.jobs, p);
  }

  lemma BalancedRun(s: Setting, st0: State, es: seq<Event>, st: State, p: Pool)
    requires CanRun(s, st0, es) && st == After(s, st0, es)
    requires HeldAt(st0.jobs, p) == multiset{} && HeldAt(st.jobs, p) == multiset{}
    ensures Acquired(s, st0, es, p) == GivenBack(s, st0, es, p)
  {
    RunBalance(s, st0, es, p);
    NothingHeld(HeldAt(st0.jobs, p), Acquired(s, st0, es, p), HeldAt(st.jobs, p), GivenBack(s, st0, es, p));
  }

  lemma NothingHeld(h: multiset<Ptr>, a: multiset<Ptr>, h': multiset<Ptr>, r: multiset<Ptr>)
    requires h + a == h' + r && h == multiset{} && h' == multiset{}
    ensures a == r
  {
    assert h + a == a && h' + r == r;
  }

  lemma QuietMeansFinished(s: Setting, st: State, first: nat)
    requires Reachable(s, st) && SameFirst(st, first) && forall e :: !Enabled(s, st, e)
    ensures forall j :: 0 <= j < |st.jobs| ==> Finished(st.jobs[j])
  {
    if exists j :: 0 <= j < |st.jobs| && !Finished(st.jobs[j]) {
      var e := NoDeadlock(s, st, first);
    }
  }

  lemma FinishedPoolFull(s: Setting, st: State, p: Pool)
    requires Inv(s, st) && IsPool(s, p) && forall j :: 0 <= j < |st.jobs| ==> Finished(st.jobs[j])
    ensures HeldAt(st.jobs, p) == multiset{}
    ensures p in st.free && p in s.full && multiset(st.free[p]) == multiset(s.full[p])
  {
    forall j | 0 <= j < |st.jobs|
      ensures !Holds(st.jobs[j], p)
    {
      FinishedHoldsNothing(s, st.jobs[j], p);
    }
    NoHolders(st.jobs, p);
    assert Conserved(s, st, p);
  }

  lemma FinishedHoldsNothing(s: Setting, job: Job, p: Pool)
    requires JobOk(s, job) && Finished(job)
    ensures !Holds(job, p)
  {
    if p.task < |job.held| {
      assert p.task in job.order;
    }
  }

  lemma {:induction false} SameJobs(s: Setting, st: State, es: seq<Event>)
    requires CanRun(s, st, es)
    ensures |After(s, st, es).jobs| == |st.jobs|
    ensures forall j :: 0 <= j < |st.jobs| ==> After(s, st, es).jobs[j].visit == st.jobs[j].visit
    decreases |es|
  {
    if es != [] {
      SameJobs(s, Apply(s, st, es[0]), es[1..]);
    }
  }
}
