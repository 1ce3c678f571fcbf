/**
 One inference job as a concurrent protocol.

 A job runs one handler per completed request plus, for a multi-input job, the starter.
 Every step below is one locked section of the program (or one unlocked section that only
 its owner can disturb); the steps of different handlers and the arrival of completions
 interleave freely.
 */
module JobProtocol {
  import opened Common
  import opened TaskGraph

  datatype Status = Idle | Ready | Busy | Done

  /** What the job's lock protects. */
  datatype Board = Board(tensors: map<Name, Data>, status: map<Name, Status>, done: nat)

  /** Where a handler stands: scanning successors, holding a task it marked ready, having
      loaded that task's inputs, or gone. */
  datatype Pc = Scanning | Holding(task: Name) | Loaded(task: Name, ins: seq<Data>) | Exited

  /** `last` is the handler's answer to "did my completion finish the job". */
  datatype Handler = Handler(pc: Pc, todo: seq<Name>, last: bool) {
    predicate Owns(u: Name) {
      (pc.Holding? || pc.Loaded?) && pc.task == u
    }

    predicate Awaits(u: Name) {
      !pc.Exited? && u in todo
    }
  }

  /** `inflight` holds the dispatched requests with the inputs they captured; `dispatched`
      and `fired` record the history of dispatches and of completion callbacks. */
  datatype Job = Job(
    board: Board,
    inflight: map<Name, seq<Data>>,
    handlers: seq<Handler>,
    dispatched: seq<Name>,
    fired: nat)

  datatype Event = Complete(t: Name) | Check(h: nat) | Load(h: nat) | Dispatch(h: nat) | Exit(h: nat)

  // ----- Locked sections -----

  /** Publish the outputs of a finished task, mark it done and count it. */
  function Finish(b: Board, f: Kernel, t: Name, task: Task, ins: seq<Data>): Board {
    Board(Publish(b.tensors, f, t, task.outputs, ins), b.status[t := Done], b.done + 1)
  }

  predicate CanStart(b: Board, u: Name, task: Task) {
    u in b.status && b.status[u].Idle? && HasAll(b.tensors, task.inputs)
  }

  function SetStatus(b: Board, u: Name, st: Status): Board {
    b.(status := b.status[u := st])
  }

  // ----- Steps -----

  ghost predicate Enabled(g: Graph, s: Job, e: Event) {
    match e
    case Complete(t) => t in s.inflight && t in g.tasks
    case Check(h) => h < |s.handlers| && s.handlers[h].pc.Scanning? && s.handlers[h].todo != [] && s.handlers[h].todo[0] in g.tasks
    case Load(h) =>
      h < |s.handlers| && s.handlers[h].pc.Holding? && s.handlers[h].pc.task in g.tasks
      && HasAll(s.board.tensors, g.tasks[s.handlers[h].pc.task].inputs)
    case Dispatch(h) => h < |s.handlers| && s.handlers[h].pc.Loaded?
    case Exit(h) => h < |s.handlers| && s.handlers[h].pc.Scanning? && s.handlers[h].todo == []
  }

  ghost function Apply(g: Graph, f: Kernel, s: Job, e: Event): Job
    requires Enabled(g, s, e)
  {
    match e
    case Complete(t) =>
      var board := Finish(s.board, f, t, g.tasks[t], s.inflight[t]);
      s.(board := board, inflight := s.inflight - {t},
         handlers := s.handlers + [Handler(Scanning, g.tasks[t].nexts, board.done == |g.tasks|)])
    case Check(h) =>
      var u := s.handlers[h].todo[0];
      var rest := s.handlers[h].(todo := s.handlers[h].todo[1..]);
      if CanStart(s.board, u, g.tasks[u]) then
        s.(board := SetStatus(s.board, u, Ready), handlers := s.handlers[h := rest.(pc := Holding(u))])
      else
        s.(handlers := s.handlers[h := rest])
    case Load(h) =>
      var u := s.handlers[h].pc.task;
      s.(handlers := s.handlers[h := s.handlers[h].(pc := Loaded(u, Lookup(s.board.tensors, g.tasks[u].inputs)))])
    case Dispatch(h) =>
      var u := s.handlers[h].pc.task;
      s.(board := SetStatus(s.board, u, Busy), inflight := s.inflight[u := s.handlers[h].pc.ins],
         handlers := s.handlers[h := s.handlers[h].(pc := Scanning)], dispatched := s.dispatched + [u])
    case Exit(h) =>
      s.(handlers := s.handlers[h := s.handlers[h].(pc := Exited)],
         fired := if s.handlers[h].last then s.fired + 1 else s.fired)
  }

  /** A sequence of steps, each possible where it happens. */
  ghost predicate CanRun(g: Graph, f: Kernel, s: Job, es: seq<Event>)
    decreases |es|
  {
    es == [] || (Enabled(g, s, es[0]) && CanRun(g, f, Apply(g, f, s, es[0]), es[1..]))
  }

  ghost function After(g: Graph, f: Kernel, s: Job, es: seq<Event>): Job
    requires CanRun(g, f, s, es)
    decreases |es|
  {
    if es == [] then s else After(g, f, Apply(g, f, s, es[0]), es[1..])
  }

  /** Nothing in flight and no handler running. */
  ghost predicate Quiet(s: Job) {
    s.inflight == map[] && forall h :: 0 <= h < |s.handlers| ==> s.handlers[h].pc.Exited?
  }

  // ----- Starting a job -----

  /** The head of a single-input job; none for a multi-input one. */
  type Head = Option<Name>

  function AllIdle(g: Graph): map<Name, Status> {
    map t | t in g.tasks :: Idle
  }

  /** A multi-input job: the inputs are in the tensor map and the starter checks every task,
      in any order. */
  ghost predicate StartsMulti(g: Graph, s: Job) {
    exists todo: seq<Name> ::
      && (forall t :: t in todo <==> t in g.tasks)
      && s == Job(Board(g.given, AllIdle(g), 0), map[], [Handler(Scanning, todo, false)], [], 0)
  }

  /** A single-input job: the head is dispatched at once, still marked idle, and only the
      model inputs that other tasks share are put in the tensor map. */
  ghost predicate StartsSingle(g: Graph, s: Job, head: Name, shared: map<Name, Data>) {
    && head in g.tasks
    && (forall x :: x in shared ==> x in g.given && shared[x] == g.given[x])
    && (forall t, x :: t in g.tasks && t != head && x in g.tasks[t].inputs && x in g.given ==> x in shared)
    && s == Job(Board(shared, AllIdle(g), 0), map[head := Lookup(g.given, g.tasks[head].inputs)], [], [head], 0)
  }

  /** What the single-input entry point needs of the graph: nothing feeds the head, and
      every other task is fed by some task. */
  ghost predicate SingleHead(g: Graph, head: Name)
    requires head in g.tasks
  {
    && (forall t :: t in g.tasks ==> head !in g.tasks[t].nexts)
    && (forall u :: u in g.tasks && u != head ==> exists t :: t in g.tasks && u in g.tasks[t].nexts)
  }

  // ----- The invariant -----

  ghost predicate Known(g: Graph, s: Job) {
    && s.board.status.Keys == g.tasks.Keys
    && s.inflight.Keys <= g.tasks.Keys
    && (forall h, u :: 0 <= h < |s.handlers| && u in s.handlers[h].todo ==> u in g.tasks)
  }

  ghost predicate IsDone(s: Job, t: Name) {
    t in s.board.status && s.board.status[t].Done?
  }

  /** Tensor `x` was published by task `t`. */
  ghost predicate Published(g: Graph, s: Job, t: Name, x: Name) {
    t in g.tasks && IsDone(s, t) && x in g.tasks[t].outputs
  }

  /** Present tensors have their final value; they are the initial ones and the outputs of
      done tasks. */
  ghost predicate TensorsOk(g: Graph, ref: map<Name, Data>, start: map<Name, Data>, s: Job) {
    && (forall x :: x in s.board.tensors ==> x in ref && s.board.tensors[x] == ref[x])
    && (forall x :: x in start ==> x in s.board.tensors)
    && (forall t, x :: Published(g, s, t, x) ==> x in s.board.tensors)
    && (forall x :: x in s.board.tensors && x !in start ==> exists t :: Published(g, s, t, x))
  }

  /** In-flight tasks captured final inputs and are busy (or the idle head). */
  ghost predicate FlightOk(g: Graph, ref: map<Name, Data>, head: Head, s: Job) {
    && (forall t :: t in s.inflight ==>
          t in g.tasks && t in s.board.status && s.inflight[t] == Lookup(ref, g.tasks[t].inputs)
          && (s.board.status[t].Busy? || (head == Some(t) && s.board.status[t].Idle?)))
    && (forall t :: t in s.board.status && s.board.status[t].Busy? ==> t in s.inflight)
  }

  ghost predicate Owned(s: Job, h: nat, u: Name) {
    h < |s.handlers| && s.handlers[h].Owns(u)
  }

  /** A ready task has exactly one owner, and its inputs are present. */
  ghost predicate OwnersOk(g: Graph, ref: map<Name, Data>, s: Job) {
    && (forall h: nat, u :: Owned(s, h, u) ==>
          u in g.tasks && u in s.board.status && s.board.status[u].Ready?
          && HasAll(s.board.tensors, g.tasks[u].inputs)
          && (s.handlers[h].pc.Loaded? ==> s.handlers[h].pc.ins == Lookup(ref, g.tasks[u].inputs)))
    && (forall h: nat, k: nat, u :: Owned(s, h, u) && Owned(s, k, u) ==> h == k)
    && (forall u :: u in s.board.status && s.board.status[u].Ready? ==> exists h: nat :: Owned(s, h, u))
  }

  /** No task is dispatched twice; the dispatched tasks are those in flight or done. */
  ghost predicate OnceOk(s: Job) {
    && Distinct(s.dispatched)
    && (forall t :: t in s.dispatched <==> t in s.inflight || IsDone(s, t))
    && (forall t :: t in s.inflight ==> !IsDone(s, t))
  }

  ghost function DoneTasks(s: Job): set<Name> {
    set t | t in s.board.status && s.board.status[t].Done?
  }

  ghost predicate Last(s: Job, h: nat) {
    h < |s.handlers| && s.handlers[h].last
  }

  /** The count is right, and exactly one handler learns that it was the last one, which
      fires the completion callback once, when it leaves. */
  ghost predicate CountOk(g: Graph, s: Job) {
    && s.board.done == |DoneTasks(s)|
    && (forall h: nat :: Last(s, h) ==> s.board.done == |g.tasks|)
    && (forall h: nat, k: nat :: Last(s, h) && Last(s, k) ==> h == k)
    && (s.board.done == |g.tasks| && |g.tasks| > 0 ==> exists h: nat :: Last(s, h))
    && s.fired <= 1
    && (s.fired == 1 <==> exists h: nat :: Last(s, h) && s.handlers[h].pc.Exited?)
  }

  ghost predicate Pending(s: Job, u: Name) {
    exists h :: 0 <= h < |s.handlers| && s.handlers[h].Awaits(u)
  }

  ghost predicate AllFeedersDone(g: Graph, s: Job, u: Name) {
    forall t :: t in g.tasks && u in g.tasks[t].nexts ==> IsDone(s, t)
  }

  ghost predicate Waiting(s: Job, u: Name) {
    u in s.board.status && s.board.status[u].Idle? && u !in s.inflight
  }

  /** An idle task all of whose feeders are done always has a readiness check to come. */
  ghost predicate PendingOk(g: Graph, s: Job) {
    forall u :: u in g.tasks && Waiting(s, u) && AllFeedersDone(g, s, u) ==> Pending(s, u)
  }

  /** The head of a single-input job is never checked or owned. */
  ghost predicate HeadOk(head: Head, s: Job) {
    head.Some? ==> forall h :: 0 <= h < |s.handlers| ==>
                                 head.value !in s.handlers[h].todo && !s.handlers[h].Owns(head.value)
  }

  /** What does not change during a job. */
  ghost predicate Setting(g: Graph, f: Kernel, ref: map<Name, Data>, start: map<Name, Data>, head: Head) {
    && Linked(g)
    && OneProducer(g)
    && Solves(g, f, ref)
    && (forall x :: x in start ==> x in g.given)
    && (forall t, x :: t in g.tasks && head != Some(t) && x in g.tasks[t].inputs ==>
          x in start || exists w :: w in g.tasks && x in g.tasks[w].outputs)
    && (head.Some? ==> head.value in g.tasks && forall t :: t in g.tasks ==> head.value !in g.tasks[t].nexts)
  }

  ghost predicate Inv(g: Graph, ref: map<Name, Data>, start: map<Name, Data>, head: Head, s: Job) {
    && Known(g, s)
    && TensorsOk(g, ref, start, s)
    && FlightOk(g, ref, head, s)
    && OwnersOk(g, ref, s)
    && OnceOk(s)
    && CountOk(g, s)
    && PendingOk(g, s)
    && HeadOk(head, s)
  }
}
