/**
 Exactly when jobs can deadlock: some start loops visit one head first and others another.
 */
module BufferDeadlock {
  import opened Common
  import opened BufferPool
  import opened BufferLifecycle
  import opened BufferTheorems

  // ----- Runs -----

  /** Some job has not finished and no step is possible. */
  ghost predicate Stuck(s: Setting, st: State) {
    && (exists j :: 0 <= j < |st.jobs| && !Finished(st.jobs[j]))
    && forall e :: !Enabled(s, st, e)
  }

  /** Any state can be run until no step is possible. */
  lemma RunOut(s: Setting, st: State) returns (es: seq<Event>, end: State)
    requires WellSet(s) && Inv(s, st)
    ensures Runs(s, st, es, end) && forall e :: !Enabled(s, end, e)
    decreases Work(s, st.jobs)
  {
    TotalPositive(s, st.jobs);
    if e :| Enabled(s, st, e) {
      var next := Apply(s, st, e);
      StepKeeps(s, st, e);
      JobStepWork(s, st, e);
      WorkUpdate(s, st.jobs, e.job, next.jobs[e.job]);
      TotalPositive(s, next.jobs);
      es, end := RunOut(s, next);
      RunFirst(s, st, e, next, es, end);
      es := [e] + es;
    } else {
      es, end := [], st;
    }
  }

  // ----- Two parties -----

  /** The jobs before `n` visit in order `v`, those after in order `w`; `mine` is the head the job
      visits first and `theirs` the one the other party does. */
  datatype Parties = Parties(v: seq<nat>, w: seq<nat>, n: nat) {
    function Visit(j: nat): seq<nat> { if j < n then v else w }
    function Mine(j: nat): nat requires v != [] && w != [] { Visit(j)[0] }
    function Theirs(j: nat): nat requires v != [] && w != [] { if j < n then w[0] else v[0] }
  }

  ghost predicate Opposed(s: Setting, q: Parties) {
    VisitsHeads(s, q.v) && VisitsHeads(s, q.w) && q.v[0] != q.w[0] && q.n == s.size
  }

  /** Runs, holds a buffer of the head it visits first and none of the other party's. */
  ghost predicate Caught(q: Parties, job: Job, j: nat)
    requires q.v != [] && q.w != []
  {
    job.phase.Running? && job.visit == q.Visit(j) && Holds(job, Pool(q.Mine(j), 0)) && !Holds(job, Pool(q.Theirs(j), 0))
  }

  /** Every job is caught and both pools are empty. */
  ghost predicate Blocked(q: Parties, st: State)
    requires q.v != [] && q.w != []
  {
    && |st.jobs| == 2 * q.n
    && (forall j :: 0 <= j < |st.jobs| ==> Caught(q, st.jobs[j], j))
    && Empty(st, q.v[0]) && Empty(st, q.w[0])
  }

  ghost predicate Empty(st: State, t: nat) {
    Pool(t, 0) in st.free && st.free[Pool(t, 0)] == []
  }

  /** A caught job cannot begin to return buffers: the other party's head is not done. */
  lemma CaughtStays(s: Setting, q: Parties, job: Job, j: nat)
    requires Opposed(s, q) && JobOk(s, job) && Caught(q, job, j) && |s.preds| == |s.npu|
    ensures exists t: nat :: t < |s.npu| && t !in job.done
  {
    var t := q.Theirs(j);
    assert IsHead(s, q.v[0]) && IsHead(s, q.w[0]);
    assert t in job.done ==> Equipped(s, job, t);
  }

  /** Taking from another pool leaves a job caught. */
  lemma CaughtTakes(q: Parties, job: Job, j: nat, t: nat, b: Ptr)
    requires q.v != [] && q.w != [] && Caught(q, job, j) && t < |job.held| && Wanted(job, t) != Pool(q.Theirs(j), 0)
    ensures Caught(q, Took(job, t, b), j)
  {
  }

  /** A caught job can neither begin to return buffers nor get the one it lacks. */
  lemma BlockedStep(s: Setting, q: Parties, st: State, e: Event)
    requires WellSet(s) && Opposed(s, q) && Inv(s, st) && Blocked(q, st) && Enabled(s, st, e)
    ensures Blocked(q, Apply(s, st, e))
  {
    var j, job := e.job, st.jobs[e.job];
    assert Caught(q, job, j) && JobOk(s, job);
    CaughtStays(s, q, job, j);
    if e.Acquire? {
      CaughtTakes(q, job, j, e.task, Top(st.free[Wanted(job, e.task)]).value);
    }
    assert Caught(q, Apply(s, st, e).jobs[j], j);
  }

  lemma BlockedRun(s: Setting, q: Parties, st: State, es: seq<Event>)
    requires WellSet(s) && Opposed(s, q) && Inv(s, st) && Blocked(q, st) && CanRun(s, st, es)
    ensures Blocked(q, After(s, st, es))
    decreases |es|
  {
    if es != [] {
      BlockedStep(s, q, st, es[0]);
      StepKeeps(s, st, es[0]);
      BlockedRun(s, q, Apply(s, st, es[0]), es[1..]);
    }
  }

  // ----- Getting there -----

  /** How many of the first `k` jobs have taken a buffer of head `t`. */
  function Taken(q: Parties, k: nat, t: nat): nat
    requires q.v != [] && q.w != []
  {
    (if t == q.v[0] then Min(k, q.n) else 0) + (if t == q.w[0] && k > q.n then k - q.n else 0)
  }

  ghost predicate Left(st: State, t: nat, n: int) {
    Pool(t, 0) in st.free && |st.free[Pool(t, 0)]| == n
  }

  /** The first `k` jobs are caught, the others have not started. */
  ghost predicate Filling(s: Setting, q: Parties, st: State, k: nat)
    requires q.v != [] && q.w != []
  {
    && |st.jobs| == 2 * q.n && k <= 2 * q.n
    && (forall j :: 0 <= j < k ==> Caught(q, st.jobs[j], j))
    && (forall j :: k <= j < |st.jobs| ==> st.jobs[j] == NewJob(s, q.Visit(j)))
    && Left(st, q.v[0], q.n - Taken(q, k, q.v[0])) && Left(st, q.w[0], q.n - Taken(q, k, q.w[0]))
  }

  /** A new job dispatches its first head. */
  lemma FirstDispatch(s: Setting, st: State, k: nat, visit: seq<nat>) returns (mid: State)
    requires WellSet(s) && Inv(s, st) && k < |st.jobs| && VisitsHeads(s, visit) && st.jobs[k] == NewJob(s, visit)
    ensures Leads(s, st, Dispatch(k, visit[0]), mid) && Inv(s, mid)
    ensures mid == st.(jobs := st.jobs[k := NewJob(s, visit).(order := [visit[0]])])
  {
    var h, job := visit[0], NewJob(s, visit);
    assert IsHead(s, h);
    assert job.visit[0] == h && EquippedBefore(s, job, 0) && Turn(s, job, h);
    mid := Apply(s, st, Dispatch(k, h));
    assert job.order + [h] == [h];
    StepKeeps(s, st, Dispatch(k, h));
  }

  /** Job `k` dispatches its first head and takes a buffer of it. */
  lemma FillStep(s: Setting, q: Parties, st: State, k: nat) returns (mid: State, next: State)
    requires WellSet(s) && Opposed(s, q) && Inv(s, st) && Filling(s, q, st, k) && k < 2 * q.n
    ensures Leads(s, st, Dispatch(k, q.Mine(k)), mid) && Leads(s, mid, Acquire(k, q.Mine(k)), next)
    ensures Inv(s, next) && Filling(s, q, next, k + 1)
  {
    var h := q.Mine(k);
    mid := FirstDispatch(s, st, k, q.Visit(k));
    assert IsHead(s, h);
    assert Wanted(mid.jobs[k], h) == Pool(h, 0) && Left(st, h, q.n - Taken(q, k, h));
    next := Apply(s, mid, Acquire(k, h));
    StepKeeps(s, mid, Acquire(k, h));
    assert Caught(q, next.jobs[k], k);
  }

  lemma Fill(s: Setting, q: Parties, st: State, k: nat) returns (es: seq<Event>, end: State)
    requires WellSet(s) && Opposed(s, q) && Inv(s, st) && Filling(s, q, st, k)
    ensures Runs(s, st, es, end) && Blocked(q, end) && forall e :: !Enabled(s, end, e)
    decreases 2 * q.n - k
  {
    if k == 2 * q.n {
      assert Blocked(q, st);
      es, end := RunOut(s, st);
      BlockedRun(s, q, st, es);
    } else {
      var mid, next := FillStep(s, q, st, k);
      es, end := Fill(s, q, next, k + 1);
      RunFirst(s, mid, Acquire(k, q.Mine(k)), next, es, end);
      es := [Acquire(k, q.Mine(k))] + es;
      RunFirst(s, st, Dispatch(k, q.Mine(k)), mid, es, end);
      es := [Dispatch(k, q.Mine(k))] + es;
    }
  }

  /** Two start orders with different first heads lead to a deadlock, whatever the graph, the
      kinds of its tasks and the size of its pools. */
  lemma DifferentFirstDeadlocks(s: Setting, v: seq<nat>, w: seq<nat>) returns (st0: State, es: seq<Event>)
    requires WellSet(s) && VisitsHeads(s, v) && VisitsHeads(s, w) && v[0] != w[0]
    ensures Start(s, st0) && forall j :: 0 <= j < |st0.jobs| ==> st0.jobs[j].visit in {v, w}
    ensures CanRun(s, st0, es) && Stuck(s, After(s, st0, es))
  {
    var q := Parties(v, w, s.size);
    st0 := State(s.full, seq(2 * s.size, j requires 0 <= j < 2 * s.size => NewJob(s, q.Visit(j))));
    StartInv(s, st0);
    assert IsHead(s, v[0]) && IsHead(s, w[0]);
    assert IsPool(s, Pool(v[0], 0)) && IsPool(s, Pool(w[0], 0));
    var end;
    es, end := Fill(s, q, st0, 0);
    assert Caught(q, end.jobs[0], 0);
  }

  // ----- The exact condition -----

  /** No run of any number of jobs that visit the heads in one of `orders` gets stuck. */
  ghost predicate NeverStuck(s: Setting, orders: set<seq<nat>>) {
    forall st0, es :: Start(s, st0) && VisitIn(st0, orders) && CanRun(s, st0, es) ==> !Stuck(s, After(s, st0, es))
  }

  ghost predicate VisitIn(st: State, orders: set<seq<nat>>) {
    forall j :: 0 <= j < |st.jobs| ==> st.jobs[j].visit in orders
  }

  ghost predicate SameFirstIn(orders: set<seq<nat>>) {
    forall v, w :: v in orders && w in orders ==> v != [] && w != [] && v[0] == w[0]
  }

  /** Jobs never get stuck, however many there are and however their steps interleave, if and only
      if all the orders in which their start loops may visit the heads begin with the same head. */
  lemma NeverStuckExact(s: Setting, orders: set<seq<nat>>)
    requires WellSet(s) && forall v :: v in orders ==> VisitsHeads(s, v)
    ensures NeverStuck(s, orders) <==> SameFirstIn(orders)
  {
    if SameFirstIn(orders) {
      forall st0, es | Start(s, st0) && VisitIn(st0, orders) && CanRun(s, st0, es)
        ensures !Stuck(s, After(s, st0, es))
      {
        SameFirstNotStuck(s, orders, st0, es);
      }
    } else {
      var v, w :| v in orders && w in orders && !(v != [] && w != [] && v[0] == w[0]);
      var st0, es := DifferentFirstDeadlocks(s, v, w);
      assert VisitIn(st0, orders);
    }
  }

  lemma SameFirstNotStuck(s: Setting, orders: set<seq<nat>>, st0: State, es: seq<Event>)
    requires WellSet(s) && SameFirstIn(orders) && Start(s, st0) && VisitIn(st0, orders) && CanRun(s, st0, es)
    ensures !Stuck(s, After(s, st0, es))
  {
    var st := After(s, st0, es);
    SameJobs(s, st0, es);
    assert Reachable(s, st);
    if |st0.jobs| > 0 && forall e :: !Enabled(s, st, e) {
      var first := st0.jobs[0].visit[0];
      assert SameFirst(st, first);
      QuietMeansFinished(s, st, first);
    }
  }

  // ----- The smallest case -----

  /** Two CPU heads with one buffer each. */
  function TwoHeads(): Setting {
    Setting([false, false], [{}, {}], map[Pool(0, 0) := [7], Pool(1, 0) := [8]], 1)
  }

  /** The only buffer of head `j`. */
  function Buffer(j: nat): Ptr {
    if j == 0 then 7 else 8
  }

  /** Job `j`, which visits head `j` first, with what it has dispatched, whether it holds the
      buffer of that head and whether that task is done. */
  function Visitor(j: nat, order: seq<nat>, holds: bool, done: set<nat>): Job
    requires j < 2
  {
    var held := if !holds then [[], []] else if j == 0 then [[7], []] else [[], [8]];
    Job([j, 1 - j], order, held, done, Running)
  }

  /** Job `j` among the two. */
  function Both(j: nat, job: Job, other: Job): seq<Job> {
    if j == 0 then [job, other] else [other, job]
  }

  function FreeLists(a: seq<Ptr>, b: seq<Ptr>): map<Pool, seq<Ptr>> {
    map[Pool(0, 0) := a, Pool(1, 0) := b]
  }

  lemma TwoHeadsWellSet()
    ensures WellSet(TwoHeads()) && VisitsHeads(TwoHeads(), [0, 1]) && VisitsHeads(TwoHeads(), [1, 0])
  {
    var s := TwoHeads();
    forall p | IsPool(s, p)
      ensures p in s.full && Distinct(s.full[p]) && |s.full[p]| == s.size
    {
      assert p == Pool(0, 0) || p == Pool(1, 0);
    }
  }

  lemma DispatchOwn(j: nat, free: map<Pool, seq<Ptr>>, other: Job)
    requires j < 2
    ensures Leads(TwoHeads(), State(free, Both(j, Visitor(j, [], false, {}), other)), Dispatch(j, j), State(free, Both(j, Visitor(j, [j], false, {}), other)))
  {
    var job := Visitor(j, [], false, {});
    assert job.visit[0] == j && EquippedBefore(TwoHeads(), job, 0) && Turn(TwoHeads(), job, j);
    assert job.order + [j] == [j];
    assert Both(j, job, other)[j := Visitor(j, [j], false, {})] == Both(j, Visitor(j, [j], false, {}), other);
  }

  lemma AcquireOwn(j: nat, free: map<Pool, seq<Ptr>>, other: Job)
    requires j < 2 && Pool(j, 0) in free && free[Pool(j, 0)] == [Buffer(j)]
    ensures Leads(TwoHeads(), State(free, Both(j, Visitor(j, [j], false, {}), other)), Acquire(j, j),
                  State(free[Pool(j, 0) := []], Both(j, Visitor(j, [j], true, {}), other)))
  {
    var job, job' := Visitor(j, [j], false, {}), Visitor(j, [j], true, {});
    assert job.held[j] + [Buffer(j)] == [Buffer(j)] && job.held[j := [Buffer(j)]] == job'.held;
    assert Took(job, j, Buffer(j)) == job';
    assert Both(j, job, other)[j := job'] == Both(j, job', other);
  }

  lemma CompleteOwn(j: nat, free: map<Pool, seq<Ptr>>, other: Job)
    requires j < 2
    ensures Leads(TwoHeads(), State(free, Both(j, Visitor(j, [j], true, {}), other)), Complete(j, j), State(free, Both(j, Visitor(j, [j], true, {j}), other)))
  {
    var job := Visitor(j, [j], true, {});
    assert job.done + {j} == {j};
    assert Both(j, job, other)[j := Visitor(j, [j], true, {j})] == Both(j, Visitor(j, [j], true, {j}), other);
  }

  lemma DispatchOther(j: nat, free: map<Pool, seq<Ptr>>, other: Job)
    requires j < 2
    ensures Leads(TwoHeads(), State(free, Both(j, Visitor(j, [j], true, {j}), other)), Dispatch(j, 1 - j),
                  State(free, Both(j, Visitor(j, [j, 1 - j], true, {j}), other)))
  {
    var job := Visitor(j, [j], true, {j});
    assert job.visit[1] == 1 - j && EquippedBefore(TwoHeads(), job, 1) && Turn(TwoHeads(), job, 1 - j);
    assert job.order + [1 - j] == [j, 1 - j];
    assert Both(j, job, other)[j := Visitor(j, [j, 1 - j], true, {j})] == Both(j, Visitor(j, [j, 1 - j], true, {j}), other);
  }

  /** A job takes its first head's buffer, finishes that task and dispatches the other head. */
  lemma VisitorRuns(j: nat, free: map<Pool, seq<Ptr>>, other: Job, es: seq<Event>, end: State) returns (run: seq<Event>)
    requires j < 2 && Pool(j, 0) in free && free[Pool(j, 0)] == [Buffer(j)]
    requires Runs(TwoHeads(), State(free[Pool(j, 0) := []], Both(j, Visitor(j, [j, 1 - j], true, {j}), other)), es, end)
    ensures Runs(TwoHeads(), State(free, Both(j, Visitor(j, [], false, {}), other)), run, end)
  {
    var taken := free[Pool(j, 0) := []];
    DispatchOwn(j, free, other);
    AcquireOwn(j, free, other);
    CompleteOwn(j, taken, other);
    DispatchOther(j, taken, other);
    RunFirst(TwoHeads(), State(taken, Both(j, Visitor(j, [j], true, {j}), other)), Dispatch(j, 1 - j),
             State(taken, Both(j, Visitor(j, [j, 1 - j], true, {j}), other)), es, end);
    run := [Dispatch(j, 1 - j)] + es;
    RunFirst(TwoHeads(), State(taken, Both(j, Visitor(j, [j], true, {}), other)), Complete(j, j),
             State(taken, Both(j, Visitor(j, [j], true, {j}), other)), run, end);
    run := [Complete(j, j)] + run;
    RunFirst(TwoHeads(), State(free, Both(j, Visitor(j, [j], false, {}), other)), Acquire(j, j),
             State(taken, Both(j, Visitor(j, [j], true, {}), other)), run, end);
    run := [Acquire(j, j)] + run;
    RunFirst(TwoHeads(), State(free, Both(j, Visitor(j, [], false, {}), other)), Dispatch(j, j),
             State(free, Both(j, Visitor(j, [j], false, {}), other)), run, end);
    run := [Dispatch(j, j)] + run;
  }

  /** Both jobs hold their first head's buffer and wait for the other's. */
  function Deadlocked(): State {
    State(FreeLists([], []), [Visitor(0, [0, 1], true, {0}), Visitor(1, [1, 0], true, {1})])
  }

  /** A reachable state in which no job has finished and no step is possible. */
  lemma OppositeOrdersDeadlock()
    ensures Reachable(TwoHeads(), Deadlocked())
    ensures forall e :: !Enabled(TwoHeads(), Deadlocked(), e)
    ensures forall j :: 0 <= j < 2 ==> !Finished(Deadlocked().jobs[j])
  {
    var a, b := Visitor(0, [0, 1], true, {0}), Visitor(1, [], false, {});
    var f0, f1, f2 := FreeLists([7], [8]), FreeLists([], [8]), FreeLists([], []);
    assert f0[Pool(0, 0) := []] == f1 && f1[Pool(1, 0) := []] == f2;
    TwoHeadsWellSet();
    StartsFresh();
    assert Runs(TwoHeads(), Deadlocked(), [], Deadlocked());
    var es := VisitorRuns(1, f1, a, [], Deadlocked());
    es := VisitorRuns(0, f0, b, es, Deadlocked());
    forall e
      ensures !Enabled(TwoHeads(), Deadlocked(), e)
    {
      NoStep(e);
    }
  }

  lemma StartsFresh()
    ensures Start(TwoHeads(), State(FreeLists([7], [8]), [Visitor(0, [], false, {}), Visitor(1, [], false, {})]))
  {
    var s := TwoHeads();
    TwoHeadsWellSet();
    assert NewJob(s, [0, 1]).held == [[], []] && NewJob(s, [1, 0]).held == [[], []];
    forall p | IsPool(s, p)
      ensures p in FreeLists([7], [8]) && p in s.full && FreeLists([7], [8])[p] == s.full[p]
    {
      assert p == Pool(0, 0) || p == Pool(1, 0);
    }
  }

  lemma NoStep(e: Event)
    ensures !Enabled(TwoHeads(), Deadlocked(), e)
  {
    var s, a, b := TwoHeads(), Deadlocked().jobs[0], Deadlocked().jobs[1];
    assert 0 in a.order && 1 in a.order && 0 in b.order && 1 in b.order;
    assert Kinds(s, 0) == 1 && Kinds(s, 1) == 1;
    assert 1 !in a.done && 0 !in b.done;
    assert Wanted(a, 1) == Pool(1, 0) && Wanted(b, 0) == Pool(0, 0);
  }
}
