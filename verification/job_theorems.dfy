/**
 What holds of every run of an inference job, whatever the interleaving.
 */
module JobTheorems {
  import opened Common
  import opened TaskGraph
  import opened JobProtocol
  import opened JobProofs

  /** How a job begins, and the tensors it begins with. */
  ghost predicate Starts(g: Graph, s: Job, start: map<Name, Data>, head: Head) {
    match head
    case None => StartsMulti(g, s) && start == g.given
    case Some(name) => StartsSingle(g, s, name, start) && SingleHead(g, name)
  }

  /** `s` is reached from a start by some interleaving. */
  ghost predicate Reachable(g: Graph, f: Kernel, start: map<Name, Data>, head: Head, s: Job) {
    exists s0, es ::
      Starts(g, s0, start, head) && CanRun(g, f, s0, es) && s == After(g, f, s0, es)
  }

  lemma StartSetting(g: Graph, f: Kernel, s: Job, start: map<Name, Data>, head: Head)
    requires WellFormed(g) && Starts(g, s, start, head)
    ensures Setting(g, f, Result(g, f), start, head)
  {
    ResultSolves(g, f);
    forall t, x | t in g.tasks && head != Some(t) && x in g.tasks[t].inputs
      ensures x in start || exists w :: w in g.tasks && x in g.tasks[w].outputs
    {
      if x !in g.given {
        GivenOrFed(g, t, x);
      }
    }
  }

  /** Nothing is done, owned or counted when a job starts. */
  lemma FreshBoard(g: Graph, ref: map<Name, Data>, s: Job)
    requires s.board.status == AllIdle(g) && s.board.done == 0 && s.fired == 0
    requires forall h: nat, u :: !Owned(s, h, u)
    requires forall h: nat :: !Last(s, h)
    ensures forall t :: !IsDone(s, t)
    ensures OwnersOk(g, ref, s) && CountOk(g, s)
  {
    assert DoneTasks(s) == {};
    if |g.tasks| == 0 {
      assert s.board.done == |g.tasks|;
    }
  }

  lemma StartInvMulti(g: Graph, ref: map<Name, Data>, s: Job)
    requires StartsMulti(g, s)
    requires forall x :: x in g.given ==> x in ref && ref[x] == g.given[x]
    ensures Inv(g, ref, g.given, None, s)
  {
    FreshBoard(g, ref, s);
    assert PendingOk(g, s) by {
      forall u | u in g.tasks
        ensures Pending(s, u)
      {
        assert s.handlers[0].Awaits(u);
      }
    }
  }

  lemma StartInvSingle(g: Graph, ref: map<Name, Data>, s: Job, head: Name, shared: map<Name, Data>)
    requires StartsSingle(g, s, head, shared)
    requires forall x :: x in g.given ==> x in ref && ref[x] == g.given[x]
    requires forall x :: x in g.tasks[head].inputs ==> x in g.given
    requires forall u :: u in g.tasks && u != head ==> exists t :: t in g.tasks && u in g.tasks[t].nexts
    ensures Inv(g, ref, shared, Some(head), s)
  {
    FreshBoard(g, ref, s);
    GivenLookup(g.given, ref, g.tasks[head].inputs);
    assert PendingOk(g, s) by {
      forall u | u in g.tasks && u != head
        ensures !AllFeedersDone(g, s, u)
      {
        var t :| t in g.tasks && u in g.tasks[t].nexts;
        assert !IsDone(s, t);
      }
    }
  }

  lemma GivenLookup(given: map<Name, Data>, ref: map<Name, Data>, xs: seq<Name>)
    requires forall x :: x in given ==> x in ref && ref[x] == given[x]
    requires forall x :: x in xs ==> x in given
    ensures Lookup(given, xs) == Lookup(ref, xs)
  {
    assert forall i :: 0 <= i < |xs| ==> xs[i] in xs;
  }

  /** An input that is not given comes from a feeder. */
  lemma GivenOrFed(g: Graph, u: Name, x: Name)
    requires WellFormed(g) && u in g.tasks && x in g.tasks[u].inputs && x !in g.given
    ensures exists t :: t in g.tasks && u in g.tasks[t].nexts && x in g.tasks[t].outputs
  {
    var i :| 0 <= i < |g.order| && g.order[i] == u;
    assert MadeBefore(g, i, x);
    var j :| 0 <= j < i && x in g.tasks[g.order[j]].outputs;
    assert Feeds(g.tasks[g.order[j]], g.tasks[u]);
    assert u in g.tasks[g.order[j]].nexts;
  }

  lemma HeadInputsGiven(g: Graph, head: Name)
    requires WellFormed(g) && head in g.tasks && SingleHead(g, head)
    ensures forall x :: x in g.tasks[head].inputs ==> x in g.given
  {
    forall x | x in g.tasks[head].inputs
      ensures x in g.given
    {
      assert x in g.given by {
        if x !in g.given {
          GivenOrFed(g, head, x);
        }
      }
    }
  }

  lemma StartInv(g: Graph, f: Kernel, s: Job, start: map<Name, Data>, head: Head)
    requires WellFormed(g) && Starts(g, s, start, head)
    ensures Setting(g, f, Result(g, f), start, head) && Inv(g, Result(g, f), start, head, s)
  {
    StartSetting(g, f, s, start, head);
    if head.None? {
      StartInvMulti(g, Result(g, f), s);
    } else {
      HeadInputsGiven(g, head.value);
      StartInvSingle(g, Result(g, f), s, head.value, start);
    }
  }

  lemma ReachableInv(g: Graph, f: Kernel, start: map<Name, Data>, head: Head, s: Job)
    requires WellFormed(g) && Reachable(g, f, start, head, s)
    ensures Setting(g, f, Result(g, f), start, head) && Inv(g, Result(g, f), start, head, s)
  {
    var s0, es :| Starts(g, s0, start, head) && CanRun(g, f, s0, es) && s == After(g, f, s0, es);
    StartInv(g, f, s0, start, head);
    RunKeeps(g, f, Result(g, f), start, head, s0, es);
  }

  // ----- Safety -----

  /** In every reachable state: no task was dispatched twice; every dispatched request holds
      the final values of its inputs; the count is the number of done tasks; and the
      completion callback has fired at most once, only after every task was done. */
  lemma DispatchSafety(g: Graph, f: Kernel, start: map<Name, Data>, head: Head, s: Job)
    requires WellFormed(g) && Reachable(g, f, start, head, s)
    ensures Distinct(s.dispatched)
    ensures forall t :: t in s.inflight ==> t in g.tasks && InPlace(Result(g, f), g.tasks[t].inputs, s.inflight[t])
    ensures s.board.done == |DoneTasks(s)|
    ensures s.fired <= 1
    ensures s.fired == 1 ==> DoneTasks(s) == g.tasks.Keys
  {
    ReachableInv(g, f, start, head, s);
    ResultSolves(g, f);
    forall t | t in s.inflight
      ensures t in g.tasks && InPlace(Result(g, f), g.tasks[t].inputs, s.inflight[t])
    {
      LookupInPlace(Result(g, f), g.tasks[t].inputs);
    }
    if s.fired == 1 {
      var h: nat :| Last(s, h) && s.handlers[h].pc.Exited?;
      SubsetSize(DoneTasks(s), g.tasks.Keys);
    }
  }

  lemma TensorsGrow(g: Graph, f: Kernel, s: Job, e: Event, x: Name)
    requires Enabled(g, s, e) && x in s.board.tensors
    ensures x in Apply(g, f, s, e).board.tensors
  {
  }

  lemma TensorsAgree(g: Graph, ref: map<Name, Data>, start: map<Name, Data>, s: Job, s': Job, x: Name)
    requires TensorsOk(g, ref, start, s) && TensorsOk(g, ref, start, s')
    requires x in s.board.tensors && x in s'.board.tensors
    ensures s'.board.tensors[x] == s.board.tensors[x]
  {
  }

  /** A tensor that exists never changes again: the buffers captured at dispatch stay valid. */
  lemma TensorsNeverChange(g: Graph, f: Kernel, start: map<Name, Data>, head: Head, s: Job, e: Event, x: Name)
    requires WellFormed(g) && Reachable(g, f, start, head, s) && Enabled(g, s, e) && x in s.board.tensors
    ensures var s' := Apply(g, f, s, e);
            x in s'.board.tensors && s'.board.tensors[x] == s.board.tensors[x]
  {
    ReachableInv(g, f, start, head, s);
    var ref := Result(g, f);
    StepKeeps(g, f, ref, start, head, s, e);
    TensorsGrow(g, f, s, e, x);
    TensorsAgree(g, ref, start, s, Apply(g, f, s, e), x);
  }

  // ----- No stall -----

  /** A feeder comes earlier in the order. */
  lemma FeederIsEarlier(g: Graph, t: Name, k: nat)
    requires WellFormed(g) && t in g.tasks && k < |g.order| && g.order[k] in g.tasks[t].nexts
    ensures exists j :: 0 <= j < k && g.order[j] == t
  {
    var u := g.order[k];
    assert Feeds(g.tasks[t], g.tasks[u]);
    var x :| x in g.tasks[t].outputs && x in g.tasks[u].inputs;
    assert MadeBefore(g, k, x);
    var j :| 0 <= j < k && x in g.tasks[g.order[j]].outputs;
    assert g.order[j] == t;
  }

  /** In a quiet state a task whose feeders are all done is done itself. */
  lemma QuietNotHalfway(g: Graph, ref: map<Name, Data>, head: Head, s: Job, u: Name)
    requires Known(g, s) && FlightOk(g, ref, head, s) && OwnersOk(g, ref, s) && PendingOk(g, s) && Quiet(s)
    requires u in g.tasks && AllFeedersDone(g, s, u)
    ensures IsDone(s, u)
  {
    assert u in s.board.status;
    assert !s.board.status[u].Busy?;
    assert forall h: nat :: !Owned(s, h, u);
    assert !s.board.status[u].Ready?;
    assert !Pending(s, u);
    assert !Waiting(s, u);
  }

  /** A task whose feeders are done is done. */
  ghost predicate Settled(g: Graph, s: Job) {
    forall u :: u in g.tasks && AllFeedersDone(g, s, u) ==> IsDone(s, u)
  }

  lemma QuietSettled(g: Graph, ref: map<Name, Data>, head: Head, s: Job)
    requires Known(g, s) && FlightOk(g, ref, head, s) && OwnersOk(g, ref, s) && PendingOk(g, s) && Quiet(s)
    ensures Settled(g, s)
  {
    forall u | u in g.tasks && AllFeedersDone(g, s, u)
      ensures IsDone(s, u)
    {
      QuietNotHalfway(g, ref, head, s, u);
    }
  }

  ghost predicate PrefixDone(g: Graph, s: Job, k: nat) {
    k <= |g.order| && forall i :: 0 <= i < k ==> IsDone(s, g.order[i])
  }

  lemma FeedersDone(g: Graph, s: Job, k: nat)
    requires WellFormed(g) && k < |g.order| && PrefixDone(g, s, k)
    ensures AllFeedersDone(g, s, g.order[k])
  {
    forall t | t in g.tasks && g.order[k] in g.tasks[t].nexts
      ensures IsDone(s, t)
    {
      FeederIsEarlier(g, t, k);
    }
  }

  lemma NextDone(g: Graph, s: Job, k: nat)
    requires Settled(g, s) && k < |g.order| && PrefixDone(g, s, k)
    requires g.order[k] in g.tasks && AllFeedersDone(g, s, g.order[k])
    ensures PrefixDone(g, s, k + 1)
  {
    assert IsDone(s, g.order[k]);
  }

  lemma {:induction false} PrefixesDone(g: Graph, s: Job, k: nat)
    requires k <= |g.order| && forall i: nat :: i < |g.order| && PrefixDone(g, s, i) ==> PrefixDone(g, s, i + 1)
    ensures PrefixDone(g, s, k)
  {
    if k > 0 {
      PrefixesDone(g, s, k - 1);
      assert PrefixDone(g, s, k - 1 + 1);
    }
  }

  lemma SettledMeansDone(g: Graph, s: Job)
    requires WellFormed(g) && Settled(g, s)
    ensures PrefixDone(g, s, |g.order|)
  {
    forall i: nat | i < |g.order| && PrefixDone(g, s, i)
      ensures PrefixDone(g, s, i + 1)
    {
      FeedersDone(g, s, i);
      NextDone(g, s, i);
    }
    PrefixesDone(g, s, |g.order|);
  }

  /** In a reachable quiet state every task is done. */
  lemma QuietMeansDone(g: Graph, f: Kernel, start: map<Name, Data>, head: Head, s: Job)
    requires WellFormed(g) && Reachable(g, f, start, head, s) && Quiet(s)
    ensures DoneTasks(s) == g.tasks.Keys
  {
    ReachableInv(g, f, start, head, s);
    QuietSettled(g, Result(g, f), head, s);
    SettledMeansDone(g, s);
    AllListedDone(g, s);
  }

  lemma AllListedDone(g: Graph, s: Job)
    requires OrderComplete(g) && Known(g, s) && forall i :: 0 <= i < |g.order| ==> IsDone(s, g.order[i])
    ensures DoneTasks(s) == g.tasks.Keys
  {
    forall t | t in g.tasks
      ensures t in DoneTasks(s)
    {
      var i :| 0 <= i < |g.order| && g.order[i] == t;
      assert IsDone(s, g.order[i]);
    }
  }

  // ----- Determinism -----

  lemma QuietOutcome(g: Graph, ref: map<Name, Data>, start: map<Name, Data>, s: Job)
    requires Known(g, s) && TensorsOk(g, ref, start, s) && OnceOk(s) && CountOk(g, s) && Quiet(s)
    requires DoneTasks(s) == g.tasks.Keys && |g.tasks| > 0
    ensures forall x :: x in s.board.tensors <==> x in start || exists t :: t in g.tasks && x in g.tasks[t].outputs
    ensures s.fired == 1
    ensures forall t :: t in s.dispatched <==> t in g.tasks
  {
    forall t
      ensures IsDone(s, t) <==> t in g.tasks
    {
      assert t in DoneTasks(s) <==> IsDone(s, t);
    }
    forall t, x | t in g.tasks && x in g.tasks[t].outputs
      ensures x in s.board.tensors
    {
      assert Published(g, s, t, x);
    }
    forall x | x in s.board.tensors && x !in start
      ensures exists t :: t in g.tasks && x in g.tasks[t].outputs
    {
      var t :| Published(g, s, t, x);
    }
    assert |g.tasks| == |g.tasks.Keys|;
    var h: nat :| Last(s, h);
    assert s.handlers[h].pc.Exited?;
  }

  /** Every interleaving that runs out ends with the tensors of the sequential evaluation and
      exactly one completion callback. */
  lemma EveryRunAgrees(g: Graph, f: Kernel, start: map<Name, Data>, head: Head, s: Job)
    requires WellFormed(g) && |g.tasks| > 0 && Reachable(g, f, start, head, s) && Quiet(s)
    ensures forall x :: x in s.board.tensors <==> x in start || exists t :: t in g.tasks && x in g.tasks[t].outputs
    ensures forall x :: x in s.board.tensors ==> x in Result(g, f) && s.board.tensors[x] == Result(g, f)[x]
    ensures s.fired == 1
    ensures Distinct(s.dispatched) && forall t :: t in s.dispatched <==> t in g.tasks
  {
    ReachableInv(g, f, start, head, s);
    QuietMeansDone(g, f, start, head, s);
    QuietOutcome(g, Result(g, f), start, s);
  }
}
