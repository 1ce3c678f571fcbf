/**
 Many jobs sharing the buffer pools of the tasks of one model.

 A task has an ordered list of pools: encoded input, output, encoded output on the NPU, output
 alone on the CPU.  A request takes one buffer of each in that order and keeps them until its
 job ends; the job then returns the buffers of its requests in dispatch order, each set in
 reverse.  Every take and every return is one step, and the steps of all jobs interleave
 freely.  A request that finds its next pool empty waits.
 */
module BufferLifecycle {
  import opened Common
  import opened BufferPool

  /** The `kind`-th pool of a task. */
  datatype Pool = Pool(task: nat, kind: nat)

  /** Tasks are numbered in a topological order of the graph; `size` is the number of buffers in
      every pool and `full` lists them. */
  datatype Setting = Setting(npu: seq<bool>, preds: seq<set<nat>>, full: map<Pool, seq<Ptr>>, size: nat)

  function Kinds(s: Setting, t: nat): (k: nat)
    ensures k >= 1
  {
    if t < |s.npu| && s.npu[t] then 3 else 1
  }

  predicate IsPool(s: Setting, p: Pool) {
    p.task < |s.npu| && p.kind < Kinds(s, p.task)
  }

  /** Every task is fed by earlier ones; pools of one positive size. */
  ghost predicate WellSet(s: Setting) {
    && 1 <= |s.npu| == |s.preds| && 1 <= s.size
    && (forall t :: 0 <= t < |s.preds| ==> forall q :: q in s.preds[t] ==> q < t)
    && (forall p :: IsPool(s, p) ==> p in s.full && Distinct(s.full[p]) && |s.full[p]| == s.size)
  }

  /** A task that no task feeds. */
  predicate IsHead(s: Setting, t: nat) {
    t < |s.preds| && s.preds[t] == {}
  }

  /** An order in which the start loop of a job visits the heads. */
  ghost predicate VisitsHeads(s: Setting, visit: seq<nat>) {
    && visit != [] && Distinct(visit)
    && (forall i :: 0 <= i < |visit| ==> IsHead(s, visit[i]))
    && (forall t: nat :: IsHead(s, t) ==> t in visit)
  }

  datatype Phase = Running | Releasing(next: nat)

  /** `visit`: the order of the heads in the start loop; `order`: the tasks dispatched so far;
      `held[t]`: the buffers the request for task `t` holds, in the order taken. */
  datatype Job = Job(visit: seq<nat>, order: seq<nat>, held: seq<seq<Ptr>>, done: set<nat>, phase: Phase)

  datatype State = State(free: map<Pool, seq<Ptr>>, jobs: seq<Job>)

  datatype Event =
    | Dispatch(job: nat, task: nat)
    | Acquire(job: nat, task: nat)
    | Complete(job: nat, task: nat)
    | BeginRelease(job: nat)
    | Release(job: nat)

  // ----- Steps -----

  /** The pool the request for task `t` takes from next. */
  function Wanted(job: Job, t: nat): Pool
    requires t < |job.held|
  {
    Pool(t, |job.held[t]|)
  }

  /** The request for `t` has been dispatched and lacks buffers. */
  predicate Acquiring(s: Setting, job: Job, t: nat) {
    job.phase.Running? && t in job.order && t < |job.held| && |job.held[t]| < Kinds(s, t)
  }

  /** The request for `t` holds all its buffers. */
  predicate Equipped(s: Setting, job: Job, t: nat) {
    t < |job.held| && |job.held[t]| == Kinds(s, t)
  }

  /** The start loop has come to head `t`: dispatching waits for buffers, so the heads visited
      before it hold theirs. */
  ghost predicate Turn(s: Setting, job: Job, t: nat) {
    exists i :: 0 <= i < |job.visit| && job.visit[i] == t && EquippedBefore(s, job, i)
  }

  ghost predicate EquippedBefore(s: Setting, job: Job, i: nat) {
    i <= |job.visit| && forall k :: 0 <= k < i ==> Equipped(s, job, job.visit[k])
  }

  predicate InReleaseLoop(job: Job) {
    job.phase.Releasing? && job.phase.next < |job.order|
  }

  predicate Finished(job: Job) {
    job.phase.Releasing? && job.phase.next == |job.order|
  }

  /** The task whose buffers are being returned. */
  function Current(job: Job): nat
    requires InReleaseLoop(job)
  {
    job.order[job.phase.next]
  }

  ghost predicate Enabled(s: Setting, st: State, e: Event) {
    && e.job < |st.jobs|
    && var job := st.jobs[e.job];
    match e
    case Dispatch(_, t) => CanDispatch(s, job, t)
    case Acquire(_, t) => Acquiring(s, job, t) && Wanted(job, t) in st.free && st.free[Wanted(job, t)] != []
    case Complete(_, t) => job.phase.Running? && t in job.order && t !in job.done && Equipped(s, job, t)
    case BeginRelease(_) => job.phase.Running? && forall t: nat :: t < |s.npu| ==> t in job.done
    case Release(_) => Releasable(st, job)
  }

  /** A head is dispatched in its turn, another task once the tasks that feed it are done. */
  ghost predicate CanDispatch(s: Setting, job: Job, t: nat) {
    && job.phase.Running? && t < |s.preds| && t !in job.order && s.preds[t] <= job.done
    && (s.preds[t] == {} ==> Turn(s, job, t))
  }

  /** A buffer is there to return; returning never waits. */
  ghost predicate Releasable(st: State, job: Job) {
    && InReleaseLoop(job) && Current(job) < |job.held| && job.held[Current(job)] != []
    && Source(job) in st.free
  }

  /** Where the next buffer returned goes. */
  function Source(job: Job): Pool
    requires InReleaseLoop(job) && Current(job) < |job.held| && job.held[Current(job)] != []
  {
    Pool(Current(job), |job.held[Current(job)]| - 1)
  }

  /** The next buffer returned. */
  function Last(job: Job): Ptr
    requires InReleaseLoop(job) && Current(job) < |job.held| && job.held[Current(job)] != []
  {
    job.held[Current(job)][|job.held[Current(job)]| - 1]
  }

  function Took(job: Job, t: nat, b: Ptr): Job
    requires t < |job.held|
  {
    job.(held := job.held[t := job.held[t] + [b]])
  }

  function Gave(job: Job): Job
    requires InReleaseLoop(job) && Current(job) < |job.held| && job.held[Current(job)] != []
  {
    var t := Current(job);
    var rest := job.held[t][..|job.held[t]| - 1];
    job.(held := job.held[t := rest], phase := Releasing(if rest == [] then job.phase.next + 1 else job.phase.next))
  }

  ghost function Apply(s: Setting, st: State, e: Event): State
    requires Enabled(s, st, e)
  {
    var j, job := e.job, st.jobs[e.job];
    match e
    case Dispatch(_, t) => st.(jobs := st.jobs[j := job.(order := job.order + [t])])
    case Acquire(_, t) =>
      var p := Wanted(job, t);
      State(st.free[p := Rest(st.free[p])], st.jobs[j := Took(job, t, Top(st.free[p]).value)])
    case Complete(_, t) => st.(jobs := st.jobs[j := job.(done := job.done + {t})])
    case BeginRelease(_) => st.(jobs := st.jobs[j := job.(phase := Releasing(0))])
    case Release(_) =>
      var p := Source(job);
      State(st.free[p := Returned(st.free[p], Some(Last(job)))], st.jobs[j := Gave(job)])
  }

  ghost predicate CanRun(s: Setting, st: State, es: seq<Event>)
    decreases |es|
  {
    es == [] || (Enabled(s, st, es[0]) && CanRun(s, Apply(s, st, es[0]), es[1..]))
  }

  ghost function After(s: Setting, st: State, es: seq<Event>): State
    requires CanRun(s, st, es)
    decreases |es|
  {
    if es == [] then st else After(s, Apply(s, st, es[0]), es[1..])
  }

  /** `e` leads from `st` to `st'`. */
  ghost predicate Leads(s: Setting, st: State, e: Event, st': State) {
    Enabled(s, st, e) && Apply(s, st, e) == st'
  }

  ghost predicate Runs(s: Setting, st: State, es: seq<Event>, st': State) {
    CanRun(s, st, es) && After(s, st, es) == st'
  }

  lemma RunFirst(s: Setting, st: State, e: Event, next: State, es: seq<Event>, end: State)
    requires Leads(s, st, e, next) && Runs(s, next, es, end)
    ensures Runs(s, st, [e] + es, end)
  {
    assert ([e] + es)[1..] == es;
  }

  function NewJob(s: Setting, visit: seq<nat>): Job {
    Job(visit, [], seq(|s.npu|, t => []), {}, Running)
  }

  /** All pools full, `n` jobs about to start. */
  ghost predicate Start(s: Setting, st: State) {
    && (forall p :: IsPool(s, p) ==> p in st.free && p in s.full && st.free[p] == s.full[p])
    && (forall j :: 0 <= j < |st.jobs| ==> VisitsHeads(s, st.jobs[j].visit) && st.jobs[j] == NewJob(s, st.jobs[j].visit))
  }

  // ----- Who holds what -----

  predicate Holds(job: Job, p: Pool) {
    p.task < |job.held| && p.kind < |job.held[p.task]|
  }

  ghost function HeldBy(job: Job, p: Pool): multiset<Ptr> {
    if Holds(job, p) then multiset{job.held[p.task][p.kind]} else multiset{}
  }

  /** The buffers of pool `p` that the jobs hold. */
  ghost function HeldAt(jobs: seq<Job>, p: Pool): multiset<Ptr> {
    if jobs == [] then multiset{} else HeldAt(jobs[..|jobs| - 1], p) + HeldBy(jobs[|jobs| - 1], p)
  }

  lemma {:induction false} HeldAtUpdate(jobs: seq<Job>, j: nat, job: Job, p: Pool)
    requires j < |jobs|
    ensures HeldAt(jobs[j := job], p) + HeldBy(jobs[j], p) == HeldAt(jobs, p) + HeldBy(job, p)
  {
    var n := |jobs| - 1;
    var jobs' := jobs[j := job];
    var pre, pre', z := HeldAt(jobs[..n], p), HeldAt(jobs'[..n], p), HeldBy(jobs[n], p);
    assert HeldAt(jobs, p) == pre + z;
    assert HeldAt(jobs', p) == pre' + HeldBy(jobs'[n], p);
    if j == n {
      assert jobs'[..n] == jobs[..n];
      Exchange(pre, HeldBy(job, p), z);
    } else {
      assert jobs'[..n] == jobs[..n][j := job];
      HeldAtUpdate(jobs[..n], j, job, p);
      UpdateTail(pre', HeldBy(jobs[j], p), pre, HeldBy(job, p), z, HeldAt(jobs', p), HeldAt(jobs, p));
    }
  }

  lemma UpdateTail(a: multiset<Ptr>, x: multiset<Ptr>, b: multiset<Ptr>, y: multiset<Ptr>, z: multiset<Ptr>, new': multiset<Ptr>, old': multiset<Ptr>)
    requires a + x == b + y && new' == a + z && old' == b + z
    ensures new' + x == old' + y
  {
    AddBoth(a, x, b, y, z);
  }

  lemma Exchange(a: multiset<Ptr>, x: multiset<Ptr>, y: multiset<Ptr>)
    ensures (a + x) + y == (a + y) + x
  {
  }

  lemma AddBoth(a: multiset<Ptr>, x: multiset<Ptr>, b: multiset<Ptr>, y: multiset<Ptr>, z: multiset<Ptr>)
    requires a + x == b + y
    ensures (a + z) + x == (b + z) + y
  {
    Exchange(a, z, x);
    Exchange(b, z, y);
  }

  lemma Cancel(a: multiset<Ptr>, b: multiset<Ptr>, x: multiset<Ptr>)
    requires a + x == b + x
    ensures a == b
  {
    assert a == (a + x) - x && b == (b + x) - x;
  }

  lemma OneHeld(job: Job, p: Pool)
    ensures |HeldBy(job, p)| == if Holds(job, p) then 1 else 0
  {
  }

  lemma CountSnoc(jobs: seq<Job>, p: Pool)
    requires jobs != []
    ensures |HeldAt(jobs, p)| == |HeldAt(jobs[..|jobs| - 1], p)| + if Holds(jobs[|jobs| - 1], p) then 1 else 0
  {
    OneHeld(jobs[|jobs| - 1], p);
  }

  ghost predicate AllHoldersHold(jobs: seq<Job>, p: Pool, q: Pool) {
    forall j :: 0 <= j < |jobs| && Holds(jobs[j], p) ==> Holds(jobs[j], q)
  }

  /** If all holders of `p` hold `q`, `q` has no fewer holders. */
  lemma {:induction false} CountHolders(jobs: seq<Job>, p: Pool, q: Pool)
    requires AllHoldersHold(jobs, p, q)
    ensures |HeldAt(jobs, p)| <= |HeldAt(jobs, q)|
  {
    if jobs != [] {
      CountSnoc(jobs, p);
      CountSnoc(jobs, q);
      CountHolders(jobs[..|jobs| - 1], p, q);
    }
  }

  /** With a job `w` that holds `q` only, `q` has more. */
  lemma {:induction false} CountMoreHolders(jobs: seq<Job>, p: Pool, q: Pool, w: nat)
    requires AllHoldersHold(jobs, p, q) && w < |jobs| && Holds(jobs[w], q) && !Holds(jobs[w], p)
    ensures |HeldAt(jobs, p)| < |HeldAt(jobs, q)|
  {
    var n := |jobs| - 1;
    CountSnoc(jobs, p);
    CountSnoc(jobs, q);
    if w == n {
      CountHolders(jobs[..n], p, q);
    } else {
      CountMoreHolders(jobs[..n], p, q, w);
    }
  }

  lemma {:induction false} SomeHolder(jobs: seq<Job>, p: Pool) returns (j: nat)
    requires |HeldAt(jobs, p)| > 0
    ensures j < |jobs| && Holds(jobs[j], p)
  {
    var n := |jobs| - 1;
    if Holds(jobs[n], p) {
      j := n;
    } else {
      j := SomeHolder(jobs[..n], p);
    }
  }

  lemma {:induction false} NoHolders(jobs: seq<Job>, p: Pool)
    requires forall j :: 0 <= j < |jobs| ==> !Holds(jobs[j], p)
    ensures HeldAt(jobs, p) == multiset{}
  {
    if jobs != [] {
      NoHolders(jobs[..|jobs| - 1], p);
    }
  }

  // ----- Invariant -----

  /** Dispatched tasks are distinct, done ones were dispatched, only dispatched ones hold. */
  ghost predicate Shaped(s: Setting, job: Job) {
    && VisitsHeads(s, job.visit) && |job.held| == |s.npu| && Distinct(job.order)
    && (forall i :: 0 <= i < |job.order| ==> job.order[i] < |s.npu|)
    && (forall t :: t in job.done ==> t in job.order)
    && (forall t :: 0 <= t < |job.held| ==> |job.held[t]| <= Kinds(s, t))
  }

  ghost predicate RunningOk(s: Setting, job: Job) {
    && (forall t: nat :: t < |job.held| && t !in job.order ==> job.held[t] == [])
    && (forall t :: t in job.done ==> Equipped(s, job, t))
    && job.visit != [] && (forall t :: t in job.order && t != job.visit[0] ==> Equipped(s, job, job.visit[0]))
  }

  /** Requests before `next` hold nothing, those after it everything. */
  ghost predicate ReleasingOk(s: Setting, job: Job, next: nat) {
    && next <= |job.order|
    && (forall t: nat :: t < |s.npu| ==> t in job.order)
    && (forall x :: 0 <= x < |job.order| ==> job.order[x] < |job.held|)
    && (forall x :: 0 <= x < next ==> job.held[job.order[x]] == [])
    && (forall x :: next < x < |job.order| ==> |job.held[job.order[x]]| == Kinds(s, job.order[x]))
    && (next < |job.order| ==> job.held[job.order[next]] != [])
  }

  ghost predicate JobOk(s: Setting, job: Job) {
    && Shaped(s, job)
    && match job.phase
       case Running => RunningOk(s, job)
       case Releasing(next) => ReleasingOk(s, job, next)
  }

  ghost predicate Conserved(s: Setting, st: State, p: Pool) {
    && p in st.free && p in s.full
    && multiset(st.free[p]) + HeldAt(st.jobs, p) == multiset(s.full[p])
  }

  ghost predicate Inv(s: Setting, st: State) {
    && (forall j :: 0 <= j < |st.jobs| ==> JobOk(s, st.jobs[j]))
    && (forall p :: IsPool(s, p) ==> Conserved(s, st, p))
  }

  // ----- Each step keeps the job's shape -----

  lemma DispatchKeeps(s: Setting, job: Job, t: nat)
    requires WellSet(s) && JobOk(s, job) && CanDispatch(s, job, t)
    ensures JobOk(s, job.(order := job.order + [t]))
  {
    var job' := job.(order := job.order + [t]);
    FirstEquipped(s, job, t);
    assert forall u :: u in job'.order ==> u in job.order || u == t;
    assert forall u :: u in job.order ==> u in job'.order;
  }

  /** Whatever is dispatched after the first head finds the first head equipped. */
  lemma FirstEquipped(s: Setting, job: Job, t: nat)
    requires JobOk(s, job) && CanDispatch(s, job, t)
    ensures t != job.visit[0] ==> Equipped(s, job, job.visit[0])
  {
    if s.preds[t] != {} {
      var q :| q in s.preds[t];
      assert q in job.done && q in job.order;
    }
  }

  lemma AcquireKeeps(s: Setting, job: Job, t: nat, b: Ptr)
    requires JobOk(s, job) && Acquiring(s, job, t)
    ensures JobOk(s, Took(job, t, b))
  {
  }

  lemma BeginKeeps(s: Setting, job: Job)
    requires WellSet(s) && JobOk(s, job) && job.phase.Running? && forall t: nat :: t < |s.npu| ==> t in job.done
    ensures JobOk(s, job.(phase := Releasing(0)))
  {
    assert 0 in job.order;
    forall x | 0 <= x < |job.order|
      ensures |job.held[job.order[x]]| == Kinds(s, job.order[x])
    {
      assert job.order[x] in job.done;
    }
  }

  lemma ReleaseKeeps(s: Setting, job: Job)
    requires JobOk(s, job) && InReleaseLoop(job)
    ensures Current(job) < |job.held| && job.held[Current(job)] != [] && IsPool(s, Source(job))
    ensures JobOk(s, Gave(job))
  {
    var t, next := Current(job), job.phase.next;
    var job' := Gave(job);
    assert forall x :: 0 <= x < |job.order| && x != next ==> job.order[x] != t;
    assert forall x :: 0 <= x < |job.order| && x != next ==> job'.held[job.order[x]] == job.held[job.order[x]];
    if next + 1 < |job.order| {
      assert |job.held[job.order[next + 1]]| >= 1;
    }
    assert Shaped(s, job');
  }

  // ----- Each step conserves buffers -----

  /** Steps that move no buffer. */
  lemma QuietConserves(s: Setting, st: State, j: nat, job: Job, p: Pool)
    requires j < |st.jobs| && Conserved(s, st, p) && job.held == st.jobs[j].held
    ensures Conserved(s, st.(jobs := st.jobs[j := job]), p)
  {
    QuietHeld(st, j, job, p);
  }

  lemma QuietHeld(st: State, j: nat, job: Job, p: Pool)
    requires j < |st.jobs| && job.held == st.jobs[j].held
    ensures HeldAt(st.jobs[j := job], p) == HeldAt(st.jobs, p)
  {
    HeldAtUpdate(st.jobs, j, job, p);
    assert HeldBy(job, p) == HeldBy(st.jobs[j], p);
    Cancel(HeldAt(st.jobs[j := job], p), HeldAt(st.jobs, p), HeldBy(job, p));
  }

  lemma TakeMoves(free: seq<Ptr>)
    requires free != []
    ensures multiset(Rest(free)) + multiset{Top(free).value} == multiset(free)
  {
    assert free == Rest(free) + [Top(free).value];
  }

  lemma TookHeld(job: Job, t: nat, b: Ptr, p: Pool)
    requires t < |job.held|
    ensures HeldBy(Took(job, t, b), p) == HeldBy(job, p) + if p == Wanted(job, t) then multiset{b} else multiset{}
  {
  }

  lemma GaveHeld(job: Job, p: Pool)
    requires InReleaseLoop(job) && Current(job) < |job.held| && job.held[Current(job)] != []
    ensures HeldBy(job, p) == HeldBy(Gave(job), p) + if p == Source(job) then multiset{Last(job)} else multiset{}
  {
  }

  lemma AcquireHeld(st: State, j: nat, t: nat, b: Ptr, p: Pool)
    requires j < |st.jobs| && t < |st.jobs[j].held|
    ensures HeldAt(st.jobs[j := Took(st.jobs[j], t, b)], p)
            == HeldAt(st.jobs, p) + if p == Wanted(st.jobs[j], t) then multiset{b} else multiset{}
  {
    var job := st.jobs[j];
    var old', new', d := HeldAt(st.jobs, p), HeldAt(st.jobs[j := Took(job, t, b)], p), if p == Wanted(job, t) then multiset{b} else multiset{};
    HeldAtUpdate(st.jobs, j, Took(job, t, b), p);
    TookHeld(job, t, b, p);
    Exchange(old', HeldBy(job, p), d);
    Cancel(new', old' + d, HeldBy(job, p));
  }

  lemma ReleaseHeld(st: State, j: nat, p: Pool)
    requires j < |st.jobs| && InReleaseLoop(st.jobs[j]) && Current(st.jobs[j]) < |st.jobs[j].held| && st.jobs[j].held[Current(st.jobs[j])] != []
    ensures HeldAt(st.jobs[j := Gave(st.jobs[j])], p) + (if p == Source(st.jobs[j]) then multiset{Last(st.jobs[j])} else multiset{})
            == HeldAt(st.jobs, p)
  {
    var job := st.jobs[j];
    var old', new', d := HeldAt(st.jobs, p), HeldAt(st.jobs[j := Gave(job)], p), if p == Source(job) then multiset{Last(job)} else multiset{};
    HeldAtUpdate(st.jobs, j, Gave(job), p);
    GaveHeld(job, p);
    Exchange(new', HeldBy(Gave(job), p), d);
    Cancel(new' + d, old', HeldBy(Gave(job), p));
  }

  /** What is held is not free: the double-release guard never fires. */
  lemma HeldNotFree(s: Setting, st: State, j: nat, p: Pool)
    requires j < |st.jobs| && Conserved(s, st, p) && Distinct(s.full[p]) && Holds(st.jobs[j], p)
    ensures st.jobs[j].held[p.task][p.kind] in s.full[p]
    ensures st.jobs[j].held[p.task][p.kind] !in st.free[p]
  {
    var b := st.jobs[j].held[p.task][p.kind];
    HeldIn(st.jobs, j, p);
    DistinctOnce(s.full[p], b);
    assert multiset(s.full[p])[b] == multiset(st.free[p])[b] + HeldAt(st.jobs, p)[b];
    assert b in st.free[p] <==> multiset(st.free[p])[b] > 0;
    assert b in s.full[p] <==> multiset(s.full[p])[b] > 0;
  }

  lemma {:induction false} HeldIn(jobs: seq<Job>, j: nat, p: Pool)
    requires j < |jobs| && Holds(jobs[j], p)
    ensures HeldAt(jobs, p)[jobs[j].held[p.task][p.kind]] >= 1
  {
    var n := |jobs| - 1;
    if j < n {
      HeldIn(jobs[..n], j, p);
    }
  }

  lemma {:induction false} DistinctOnce(full: seq<Ptr>, b: Ptr)
    requires Distinct(full)
    ensures multiset(full)[b] <= 1
  {
    if full != [] {
      var n := |full| - 1;
      assert full == full[..n] + [full[n]];
      DistinctOnce(full[..n], b);
      assert multiset(full) == multiset(full[..n]) + multiset{full[n]};
      if full[n] == b {
        assert b !in full[..n];
        assert multiset(full[..n])[b] == 0;
      }
    }
  }

  lemma AcquireConserves(s: Setting, st: State, j: nat, t: nat, p: Pool)
    requires Enabled(s, st, Acquire(j, t)) && Conserved(s, st, p)
    ensures Conserved(s, Apply(s, st, Acquire(j, t)), p)
  {
    var w := Wanted(st.jobs[j], t);
    AcquireHeld(st, j, t, Top(st.free[w]).value, p);
    TakeMoves(st.free[w]);
  }

  lemma ReleaseConserves(s: Setting, st: State, j: nat, p: Pool)
    requires Enabled(s, st, Release(j)) && Conserved(s, st, p) && Conserved(s, st, Source(st.jobs[j]))
    requires Distinct(s.full[Source(st.jobs[j])])
    ensures Conserved(s, Apply(s, st, Release(j)), p)
  {
    var w := Source(st.jobs[j]);
    HeldNotFree(s, st, j, w);
    ReleaseHeld(st, j, p);
    assert Returned(st.free[w], Some(Last(st.jobs[j]))) == st.free[w] + [Last(st.jobs[j])];
  }

  /** Every step keeps the invariant. */
  lemma StepKeeps(s: Setting, st: State, e: Event)
    requires WellSet(s) && Inv(s, st) && Enabled(s, st, e)
    ensures Inv(s, Apply(s, st, e))
  {
    var st', job := Apply(s, st, e), st.jobs[e.job];
    match e {
      case Dispatch(_, t) => DispatchKeeps(s, job, t);
      case Acquire(_, t) => AcquireKeeps(s, job, t, Top(st.free[Wanted(job, t)]).value);
      case Complete(_, t) =>
      case BeginRelease(_) => BeginKeeps(s, job);
      case Release(_) => ReleaseKeeps(s, job);
    }
    forall p | IsPool(s, p)
      ensures Conserved(s, st', p)
    {
      StepConserves(s, st, e, p);
    }
  }

  lemma StepConserves(s: Setting, st: State, e: Event, p: Pool)
    requires WellSet(s) && Inv(s, st) && Enabled(s, st, e) && IsPool(s, p)
    ensures Conserved(s, Apply(s, st, e), p)
  {
    match e {
      case Acquire(j, t) => AcquireConserves(s, st, j, t, p);
      case Release(j) =>
        ReleaseKeeps(s, st.jobs[j]);
        ReleaseConserves(s, st, j, p);
      case _ => QuietConserves(s, st, e.job, Apply(s, st, e).jobs[e.job], p);
    }
  }

  lemma {:induction false} RunKeeps(s: Setting, st: State, es: seq<Event>)
    requires WellSet(s) && Inv(s, st) && CanRun(s, st, es)
    ensures Inv(s, After(s, st, es))
    decreases |es|
  {
    if es != [] {
      StepKeeps(s, st, es[0]);
      RunKeeps(s, Apply(s, st, es[0]), es[1..]);
    }
  }

  lemma StartInv(s: Setting, st: State)
    requires WellSet(s) && Start(s, st)
    ensures Inv(s, st)
  {
    forall p | IsPool(s, p)
      ensures Conserved(s, st, p)
    {
      NoHolders(st.jobs, p);
    }
  }
}
