/**
 Jobs make progress: no interleaving gets stuck, and all of them take the same number of
 steps.
 */
module JobProgress {
  import opened Common
  import opened TaskGraph
  import opened JobProtocol
  import opened JobProofs
  import opened JobTheorems

  /** The steps a task still has to cause. */
  ghost function TaskWork(g: Graph, s: Job, t: Name): nat
    requires t in g.tasks
  {
    var n := |g.tasks[t].nexts|;
    if IsDone(s, t) then 0
    else if t in s.board.status && s.board.status[t].Idle? && t !in s.inflight then n + 4
    else n + 2
  }

  /** The steps a handler still has to take itself. */
  ghost function HandlerWork(h: Handler): nat {
    match h.pc
    case Exited => 0
    case Scanning => |h.todo| + 1
    case Loaded(_, _) => |h.todo| + 2
    case Holding(_) => |h.todo| + 3
  }

  ghost function TasksWork(g: Graph, s: Job, order: seq<Name>): nat
    requires forall i :: 0 <= i < |order| ==> order[i] in g.tasks
  {
    if order == [] then 0 else TaskWork(g, s, order[0]) + TasksWork(g, s, order[1..])
  }

  ghost function HandlersWork(hs: seq<Handler>): nat {
    if hs == [] then 0 else HandlerWork(hs[0]) + HandlersWork(hs[1..])
  }

  ghost function Work(g: Graph, s: Job): nat
    requires Listed(g)
  {
    TasksWork(g, s, g.order) + HandlersWork(s.handlers)
  }

  // ----- Sums -----

  lemma {:induction false} TasksWorkChange(g: Graph, s: Job, s': Job, order: seq<Name>, u: Name)
    requires forall i :: 0 <= i < |order| ==> order[i] in g.tasks
    requires Distinct(order) && u in g.tasks
    requires forall t :: t in g.tasks && t != u ==> TaskWork(g, s', t) == TaskWork(g, s, t)
    ensures TasksWork(g, s', order) - TasksWork(g, s, order)
            == if u in order then TaskWork(g, s', u) - TaskWork(g, s, u) else 0
  {
    if order != [] {
      TasksWorkChange(g, s, s', order[1..], u);
      assert order[0] !in order[1..];
      assert u in order <==> u == order[0] || u in order[1..];
    }
  }

  lemma {:induction false} TasksWorkSame(g: Graph, s: Job, s': Job, order: seq<Name>)
    requires forall i :: 0 <= i < |order| ==> order[i] in g.tasks
    requires s'.board.status == s.board.status && s'.inflight == s.inflight
    ensures TasksWork(g, s', order) == TasksWork(g, s, order)
  {
    if order != [] {
      TasksWorkSame(g, s, s', order[1..]);
    }
  }

  lemma {:induction false} HandlersWorkUpdate(hs: seq<Handler>, i: nat, h: Handler)
    requires i < |hs|
    ensures HandlersWork(hs[i := h]) == HandlersWork(hs) - HandlerWork(hs[i]) + HandlerWork(h)
  {
    if i == 0 {
      assert hs[i := h][1..] == hs[1..];
    } else {
      HandlersWorkUpdate(hs[1..], i - 1, h);
      assert hs[i := h][1..] == hs[1..][i - 1 := h];
    }
  }

  lemma {:induction false} HandlersWorkAppend(hs: seq<Handler>, h: Handler)
    ensures HandlersWork(hs + [h]) == HandlersWork(hs) + HandlerWork(h)
  {
    if hs == [] {
      assert hs + [h] == [h] && [h][1..] == [];
    } else {
      HandlersWorkAppend(hs[1..], h);
      assert (hs + [h])[1..] == hs[1..] + [h];
    }
  }

  lemma {:induction false} HandlersWorkMember(hs: seq<Handler>, i: nat)
    requires i < |hs|
    ensures HandlersWork(hs) >= HandlerWork(hs[i])
  {
    if i > 0 {
      HandlersWorkMember(hs[1..], i - 1);
    }
  }

  lemma {:induction false} TasksWorkMember(g: Graph, s: Job, order: seq<Name>, i: nat)
    requires forall j :: 0 <= j < |order| ==> order[j] in g.tasks
    requires i < |order|
    ensures TasksWork(g, s, order) >= TaskWork(g, s, order[i])
  {
    if i > 0 {
      TasksWorkMember(g, s, order[1..], i - 1);
    }
  }

  // ----- Every step does one unit of work -----

  lemma CompleteWork(g: Graph, f: Kernel, s: Job, t: Name)
    requires Listed(g) && OrderComplete(g) && Known(g, s) && OnceOk(s) && Enabled(g, s, Complete(t))
    ensures Work(g, Apply(g, f, s, Complete(t))) + 1 == Work(g, s)
  {
    var s' := Apply(g, f, s, Complete(t));
    TasksWorkChange(g, s, s', g.order, t);
    HandlersWorkAppend(s.handlers, s'.handlers[|s.handlers|]);
    assert IsDone(s', t);
  }

  lemma CheckWork(g: Graph, f: Kernel, ref: map<Name, Data>, head: Head, s: Job, h: nat)
    requires Listed(g) && OrderComplete(g) && Known(g, s) && FlightOk(g, ref, head, s) && HeadOk(head, s) && Enabled(g, s, Check(h))
    ensures Work(g, Apply(g, f, s, Check(h))) + 1 == Work(g, s)
  {
    var s' := Apply(g, f, s, Check(h));
    var u := s.handlers[h].todo[0];
    assert u in s.handlers[h].todo;
    HandlersWorkUpdate(s.handlers, h, s'.handlers[h]);
    assert s'.handlers == s.handlers[h := s'.handlers[h]];
    if CanStart(s.board, u, g.tasks[u]) {
      TasksWorkChange(g, s, s', g.order, u);
    } else {
      TasksWorkSame(g, s, s', g.order);
    }
  }

  lemma DispatchWork(g: Graph, f: Kernel, ref: map<Name, Data>, s: Job, h: nat)
    requires Listed(g) && OrderComplete(g) && Known(g, s) && OwnersOk(g, ref, s) && Enabled(g, s, Dispatch(h))
    ensures Work(g, Apply(g, f, s, Dispatch(h))) + 1 == Work(g, s)
  {
    var s' := Apply(g, f, s, Dispatch(h));
    var u := s.handlers[h].pc.task;
    assert Owned(s, h, u);
    HandlersWorkUpdate(s.handlers, h, s'.handlers[h]);
    assert s'.handlers == s.handlers[h := s'.handlers[h]];
    TasksWorkChange(g, s, s', g.order, u);
  }

  lemma QuickWork(g: Graph, f: Kernel, s: Job, e: Event)
    requires Listed(g) && (e.Load? || e.Exit?) && Enabled(g, s, e)
    ensures Work(g, Apply(g, f, s, e)) + 1 == Work(g, s)
  {
    var s' := Apply(g, f, s, e);
    HandlersWorkUpdate(s.handlers, e.h, s'.handlers[e.h]);
    assert s'.handlers == s.handlers[e.h := s'.handlers[e.h]];
    TasksWorkSame(g, s, s', g.order);
  }

  lemma StepWork(g: Graph, f: Kernel, ref: map<Name, Data>, start: map<Name, Data>, head: Head, s: Job, e: Event)
    requires Listed(g) && OrderComplete(g) && Inv(g, ref, start, head, s) && Enabled(g, s, e)
    ensures Work(g, Apply(g, f, s, e)) + 1 == Work(g, s)
  {
    match e
    case Complete(t) => CompleteWork(g, f, s, t);
    case Check(h) => CheckWork(g, f, ref, head, s, h);
    case Load(h) => QuickWork(g, f, s, e);
    case Dispatch(h) => DispatchWork(g, f, ref, s, h);
    case Exit(h) => QuickWork(g, f, s, e);
  }

  lemma {:induction false} RunWork(g: Graph, f: Kernel, ref: map<Name, Data>, start: map<Name, Data>, head: Head, s: Job, es: seq<Event>)
    requires Listed(g) && OrderComplete(g) && Setting(g, f, ref, start, head) && Inv(g, ref, start, head, s) && CanRun(g, f, s, es)
    ensures |es| + Work(g, After(g, f, s, es)) == Work(g, s)
    decreases |es|
  {
    if es != [] {
      StepWork(g, f, ref, start, head, s, es[0]);
      StepKeeps(g, f, ref, start, head, s, es[0]);
      RunWork(g, f, ref, start, head, Apply(g, f, s, es[0]), es[1..]);
    }
  }

  // ----- Never stuck -----

  /** Unless the job is quiet, some step can be taken. */
  lemma SomeStep(g: Graph, ref: map<Name, Data>, s: Job) returns (e: Event)
    requires Known(g, s) && OwnersOk(g, ref, s) && !Quiet(s)
    ensures Enabled(g, s, e)
  {
    if s.inflight != map[] {
      var t :| t in s.inflight;
      e := Complete(t);
    } else {
      var h: nat :| h < |s.handlers| && !s.handlers[h].pc.Exited?;
      match s.handlers[h].pc
      case Scanning =>
        if s.handlers[h].todo == [] {
          e := Exit(h);
        } else {
          assert s.handlers[h].todo[0] in s.handlers[h].todo;
          e := Check(h);
        }
      case Holding(u) =>
        assert Owned(s, h, u);
        e := Load(h);
      case Loaded(u, ins) =>
        e := Dispatch(h);
      case Exited =>
    }
  }

  lemma NoWorkMeansQuiet(g: Graph, s: Job)
    requires Listed(g) && OrderComplete(g) && Known(g, s) && OnceOk(s) && Work(g, s) == 0
    ensures Quiet(s)
  {
    forall h: nat | h < |s.handlers|
      ensures s.handlers[h].pc.Exited?
    {
      HandlersWorkMember(s.handlers, h);
    }
    forall t | t in g.tasks
      ensures t !in s.inflight
    {
      var i: nat :| i < |g.order| && g.order[i] == t;
      TasksWorkMember(g, s, g.order, i);
      assert IsDone(s, t);
    }
    assert forall t :: t in s.inflight.Keys ==> t in g.tasks;
    assert s.inflight.Keys == {};
  }

  /** From a start, no interleaving takes more than `Work` steps, one that takes fewer can be
      continued, and one is complete exactly when it took that many: every job ends, in the
      same number of steps whatever the order of completions. */
  lemma EveryRunEnds(g: Graph, f: Kernel, s0: Job, start: map<Name, Data>, head: Head, es: seq<Event>)
    requires WellFormed(g) && Starts(g, s0, start, head) && CanRun(g, f, s0, es)
    ensures |es| <= Work(g, s0)
    ensures |es| == Work(g, s0) <==> Quiet(After(g, f, s0, es))
    ensures |es| < Work(g, s0) ==> exists e :: Enabled(g, After(g, f, s0, es), e)
  {
    var s := After(g, f, s0, es);
    assert Reachable(g, f, start, head, s);
    ReachableInv(g, f, start, head, s);
    StartInv(g, f, s0, start, head);
    RunWork(g, f, Result(g, f), start, head, s0, es);
    if |es| == Work(g, s0) {
      NoWorkMeansQuiet(g, s);
    } else {
      StillWorking(g, Result(g, f), start, head, s);
    }
  }

  lemma StillWorking(g: Graph, ref: map<Name, Data>, start: map<Name, Data>, head: Head, s: Job)
    requires WellFormed(g) && Inv(g, ref, start, head, s) && Work(g, s) > 0
    ensures !Quiet(s) && exists e :: Enabled(g, s, e)
  {
    if Quiet(s) {
      QuietSettled(g, ref, head, s);
      SettledMeansDone(g, s);
      QuietNoWork(g, s);
    }
    var e := SomeStep(g, ref, s);
  }

  lemma QuietNoWork(g: Graph, s: Job)
    requires Listed(g) && Quiet(s) && forall i :: 0 <= i < |g.order| ==> IsDone(s, g.order[i])
    ensures Work(g, s) == 0
  {
    NoTasksWork(g, s, g.order);
    NoHandlersWork(s.handlers);
  }

  lemma {:induction false} NoTasksWork(g: Graph, s: Job, order: seq<Name>)
    requires forall i :: 0 <= i < |order| ==> order[i] in g.tasks && IsDone(s, order[i])
    ensures TasksWork(g, s, order) == 0
  {
    if order != [] {
      NoTasksWork(g, s, order[1..]);
    }
  }

  lemma {:induction false} NoHandlersWork(hs: seq<Handler>)
    requires forall i :: 0 <= i < |hs| ==> hs[i].pc.Exited?
    ensures HandlersWork(hs) == 0
  {
    if hs != [] {
      NoHandlersWork(hs[1..]);
    }
  }

  /** An idle task whose inputs are all present has a readiness check to come. */
  lemma InputsPresentMeansPending(g: Graph, f: Kernel, start: map<Name, Data>, head: Head, s: Job, u: Name)
    requires WellFormed(g) && Reachable(g, f, start, head, s)
    requires u in g.tasks && Waiting(s, u) && HasAll(s.board.tensors, g.tasks[u].inputs)
    ensures Pending(s, u)
  {
    ReachableInv(g, f, start, head, s);
    forall t | t in g.tasks && u in g.tasks[t].nexts
      ensures IsDone(s, t)
    {
      InputsMeanFeederDone(g, Result(g, f), start, s, t, u);
    }
  }

  lemma InputsMeanFeederDone(g: Graph, ref: map<Name, Data>, start: map<Name, Data>, s: Job, t: Name, u: Name)
    requires Linked(g) && OneProducer(g) && TensorsOk(g, ref, start, s) && forall x :: x in start ==> x in g.given
    requires t in g.tasks && u in g.tasks && u in g.tasks[t].nexts && HasAll(s.board.tensors, g.tasks[u].inputs)
    ensures IsDone(s, t)
  {
    assert Feeds(g.tasks[t], g.tasks[u]);
    var x :| x in g.tasks[t].outputs && x in g.tasks[u].inputs;
    assert x !in start && x in s.board.tensors;
    var w :| Published(g, s, w, x);
    assert w == t;
  }
}
