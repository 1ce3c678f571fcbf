/**
 Every step of a job keeps the invariant; what follows for every interleaving.
 */
module JobProofs {
  import opened Common
  import opened TaskGraph
  import opened JobProtocol

  // ----- A completion arrives -----

  lemma CompleteTensors(g: Graph, f: Kernel, ref: map<Name, Data>, start: map<Name, Data>, head: Head, s: Job, t: Name)
    requires Solves(g, f, ref) && Known(g, s) && TensorsOk(g, ref, start, s) && FlightOk(g, ref, head, s)
    requires Enabled(g, s, Complete(t))
    ensures TensorsOk(g, ref, start, Apply(g, f, s, Complete(t)))
  {
    var s' := Apply(g, f, s, Complete(t));
    var outs := g.tasks[t].outputs;
    assert SolvesTask(g, f, ref, t);
    forall u, x | Published(g, s', u, x)
      ensures x in s'.board.tensors
    {
      assert u == t || Published(g, s, u, x);
    }
    forall x | x in s'.board.tensors && x !in start
      ensures exists u :: Published(g, s', u, x)
    {
      if x in outs {
        assert Published(g, s', t, x);
      } else {
        var u :| Published(g, s, u, x);
        assert Published(g, s', u, x);
      }
    }
  }

  lemma CompleteFlight(g: Graph, f: Kernel, ref: map<Name, Data>, head: Head, s: Job, t: Name)
    requires Known(g, s) && FlightOk(g, ref, head, s) && OwnersOk(g, ref, s)
    requires Enabled(g, s, Complete(t))
    ensures FlightOk(g, ref, head, Apply(g, f, s, Complete(t)))
    ensures OwnersOk(g, ref, Apply(g, f, s, Complete(t)))
  {
    var s' := Apply(g, f, s, Complete(t));
    assert forall x :: x in s.board.tensors ==> x in s'.board.tensors;
    forall h: nat, u | Owned(s', h, u)
      ensures Owned(s, h, u) && u != t
    {
      assert h < |s.handlers|;
    }
    forall u | u in s'.board.status && s'.board.status[u].Ready?
      ensures exists h: nat :: Owned(s', h, u)
    {
      var h: nat :| Owned(s, h, u);
      assert Owned(s', h, u);
    }
  }

  lemma CompleteCounts(g: Graph, f: Kernel, ref: map<Name, Data>, head: Head, s: Job, t: Name)
    requires Known(g, s) && FlightOk(g, ref, head, s) && OnceOk(s) && CountOk(g, s)
    requires Enabled(g, s, Complete(t))
    ensures OnceOk(Apply(g, f, s, Complete(t))) && CountOk(g, Apply(g, f, s, Complete(t)))
  {
    var s' := Apply(g, f, s, Complete(t));
    assert t !in DoneTasks(s);
    assert DoneTasks(s') == DoneTasks(s) + {t};
    assert DoneTasks(s') <= g.tasks.Keys;
    SubsetSize(DoneTasks(s'), g.tasks.Keys);
    var n := |s.handlers|;
    forall h: nat | Last(s', h)
      ensures h == n && s'.board.done == |g.tasks|
    {
      assert h < n ==> Last(s, h);
    }
    if s'.board.done == |g.tasks| {
      assert Last(s', n);
    }
  }

  lemma SubsetSize<T>(a: set<T>, b: set<T>)
    requires a <= b
    ensures |a| <= |b|
    ensures |a| == |b| ==> a == b
  {
    assert b == a + (b - a);
    assert |b| == |a| + |b - a|;
  }

  lemma CompletePending(g: Graph, f: Kernel, head: Head, s: Job, t: Name)
    requires Known(g, s) && PendingOk(g, s) && HeadOk(head, s) && Linked(g)
    requires head.Some? ==> forall w :: w in g.tasks ==> head.value !in g.tasks[w].nexts
    requires Enabled(g, s, Complete(t))
    ensures var s' := Apply(g, f, s, Complete(t));
            PendingOk(g, s') && HeadOk(head, s') && Known(g, s')
  {
    var s' := Apply(g, f, s, Complete(t));
    var n := |s.handlers|;
    forall u | u in g.tasks && Waiting(s', u) && AllFeedersDone(g, s', u)
      ensures Pending(s', u)
    {
      if u in g.tasks[t].nexts {
        assert s'.handlers[n].Awaits(u);
      } else {
        assert AllFeedersDone(g, s, u) by {
          forall w | w in g.tasks && u in g.tasks[w].nexts
            ensures IsDone(s, w)
          {
            assert IsDone(s', w);
          }
        }
        assert Waiting(s, u);
        var h :| 0 <= h < n && s.handlers[h].Awaits(u);
        assert s'.handlers[h] == s.handlers[h];
      }
    }
  }

  // ----- A handler checks a successor -----

  /** Once every feeder of a task is done, all its inputs are present. */
  lemma FeedersGiveInputs(g: Graph, f: Kernel, ref: map<Name, Data>, start: map<Name, Data>, head: Head, s: Job, u: Name)
    requires Setting(g, f, ref, start, head) && TensorsOk(g, ref, start, s)
    requires u in g.tasks && head != Some(u) && AllFeedersDone(g, s, u)
    ensures HasAll(s.board.tensors, g.tasks[u].inputs)
  {
    var xs := g.tasks[u].inputs;
    forall i | 0 <= i < |xs|
      ensures xs[i] in s.board.tensors
    {
      var x := xs[i];
      assert x in xs;
      if x !in start {
        var w :| w in g.tasks && x in g.tasks[w].outputs;
        assert Feeds(g.tasks[w], g.tasks[u]);
        assert u in g.tasks[w].nexts;
        assert Published(g, s, w, x);
      }
    }
  }

  lemma CheckOwners(g: Graph, f: Kernel, ref: map<Name, Data>, start: map<Name, Data>, head: Head, s: Job, h: nat)
    requires Known(g, s) && TensorsOk(g, ref, start, s) && FlightOk(g, ref, head, s) && OwnersOk(g, ref, s) && HeadOk(head, s)
    requires Enabled(g, s, Check(h))
    ensures var s' := Apply(g, f, s, Check(h));
            TensorsOk(g, ref, start, s') && FlightOk(g, ref, head, s') && OwnersOk(g, ref, s')
  {
    var s' := Apply(g, f, s, Check(h));
    var u := s.handlers[h].todo[0];
    assert u in s.handlers[h].todo;
    assert forall w, x :: Published(g, s', w, x) <==> Published(g, s, w, x);
    forall k: nat, w | Owned(s', k, w)
      ensures Owned(s, k, w) || (k == h && w == u && s'.board.status[u].Ready? && CanStart(s.board, u, g.tasks[u]))
    {
    }
    forall w | w in s'.board.status && s'.board.status[w].Ready?
      ensures exists k: nat :: Owned(s', k, w)
    {
      if w == u && CanStart(s.board, u, g.tasks[u]) {
        assert Owned(s', h, u);
      } else {
        var k: nat :| Owned(s, k, w);
        assert Owned(s', k, w);
      }
    }
  }

  lemma CheckCounts(g: Graph, f: Kernel, s: Job, h: nat)
    requires Known(g, s) && OnceOk(s) && CountOk(g, s)
    requires Enabled(g, s, Check(h))
    ensures var s' := Apply(g, f, s, Check(h));
            OnceOk(s') && CountOk(g, s')
  {
    var s' := Apply(g, f, s, Check(h));
    assert DoneTasks(s') == DoneTasks(s);
    assert forall t :: IsDone(s', t) <==> IsDone(s, t);
    assert forall k: nat :: Last(s', k) <==> Last(s, k);
    assert forall k: nat :: k < |s.handlers| ==> (s'.handlers[k].pc.Exited? <==> s.handlers[k].pc.Exited?);
  }

  lemma CheckPending(g: Graph, f: Kernel, ref: map<Name, Data>, start: map<Name, Data>, head: Head, s: Job, h: nat)
    requires Setting(g, f, ref, start, head) && Known(g, s) && TensorsOk(g, ref, start, s) && PendingOk(g, s) && HeadOk(head, s)
    requires Enabled(g, s, Check(h))
    ensures PendingOk(g, Apply(g, f, s, Check(h)))
  {
    var s' := Apply(g, f, s, Check(h));
    var u := s.handlers[h].todo[0];
    assert u in s.handlers[h].todo;
    assert head != Some(u);
    forall w | w in g.tasks && Waiting(s', w) && AllFeedersDone(g, s', w)
      ensures Pending(s', w)
    {
      CheckKeepsWaiting(g, f, s, h, w);
      if AllFeedersDone(g, s, u) {
        FeedersGiveInputs(g, f, ref, start, head, s, u);
      }
      assert w != u;
      var k :| 0 <= k < |s.handlers| && s.handlers[k].Awaits(w);
      CheckKeepsOthers(g, f, s, h, k, w);
    }
  }

  lemma CheckKeepsWaiting(g: Graph, f: Kernel, s: Job, h: nat, w: Name)
    requires Known(g, s) && Enabled(g, s, Check(h))
    requires var s' := Apply(g, f, s, Check(h)); Waiting(s', w) && AllFeedersDone(g, s', w)
    ensures Waiting(s, w) && AllFeedersDone(g, s, w)
    ensures w == s.handlers[h].todo[0] && w in g.tasks ==> !HasAll(s.board.tensors, g.tasks[w].inputs)
  {
    var s' := Apply(g, f, s, Check(h));
    assert forall t :: IsDone(s', t) <==> IsDone(s, t);
  }

  lemma CheckKeepsOthers(g: Graph, f: Kernel, s: Job, h: nat, k: nat, w: Name)
    requires Enabled(g, s, Check(h)) && k < |s.handlers| && s.handlers[k].Awaits(w) && w != s.handlers[h].todo[0]
    ensures var s' := Apply(g, f, s, Check(h)); k < |s'.handlers| && s'.handlers[k].Awaits(w)
  {
    var todo := s.handlers[h].todo;
    assert todo == [todo[0]] + todo[1..];
  }

  lemma CheckKnown(g: Graph, f: Kernel, head: Head, s: Job, h: nat)
    requires Known(g, s) && HeadOk(head, s) && Enabled(g, s, Check(h))
    ensures Known(g, Apply(g, f, s, Check(h))) && HeadOk(head, Apply(g, f, s, Check(h)))
  {
    var s' := Apply(g, f, s, Check(h));
    assert s.handlers[h].todo[0] in s.handlers[h].todo;
    assert forall w :: w in s.handlers[h].todo[1..] ==> w in s.handlers[h].todo;
  }

  // ----- A handler loads inputs, dispatches, leaves -----

  lemma LoadKeeps(g: Graph, f: Kernel, ref: map<Name, Data>, start: map<Name, Data>, head: Head, s: Job, h: nat)
    requires Inv(g, ref, start, head, s) && Enabled(g, s, Load(h))
    ensures Inv(g, ref, start, head, Apply(g, f, s, Load(h)))
  {
    var s' := Apply(g, f, s, Load(h));
    var u := s.handlers[h].pc.task;
    assert Owned(s, h, u);
    assert Lookup(s.board.tensors, g.tasks[u].inputs) == Lookup(ref, g.tasks[u].inputs);
    SameBoard(g, ref, start, head, s, s');
    assert forall k: nat, w :: Owned(s', k, w) <==> Owned(s, k, w);
    assert OwnersOk(g, ref, s') by {
      forall w | w in s'.board.status && s'.board.status[w].Ready?
        ensures exists k: nat :: Owned(s', k, w)
      {
        var k: nat :| Owned(s, k, w);
        assert Owned(s', k, w);
      }
    }
  }

  /** Steps that only move handlers without changing what they still have to check. */
  lemma SameBoard(g: Graph, ref: map<Name, Data>, start: map<Name, Data>, head: Head, s: Job, s': Job)
    requires Inv(g, ref, start, head, s)
    requires s'.board == s.board && s'.inflight == s.inflight && s'.dispatched == s.dispatched && s'.fired == s.fired
    requires |s'.handlers| == |s.handlers|
    requires forall k :: 0 <= k < |s.handlers| ==>
                           && s'.handlers[k].todo == s.handlers[k].todo && s'.handlers[k].last == s.handlers[k].last
                           && (s'.handlers[k].pc.Exited? <==> s.handlers[k].pc.Exited?)
                           && forall u :: s'.handlers[k].Owns(u) <==> s.handlers[k].Owns(u)
    ensures Known(g, s') && TensorsOk(g, ref, start, s') && FlightOk(g, ref, head, s') && OnceOk(s') && CountOk(g, s')
    ensures PendingOk(g, s') && HeadOk(head, s')
  {
    assert forall w, x :: Published(g, s', w, x) <==> Published(g, s, w, x);
    assert forall k: nat :: Last(s', k) <==> Last(s, k);
    assert DoneTasks(s') == DoneTasks(s);
    assert forall t :: IsDone(s', t) <==> IsDone(s, t);
    forall w | w in g.tasks && Waiting(s', w) && AllFeedersDone(g, s', w)
      ensures Pending(s', w)
    {
      assert AllFeedersDone(g, s, w) && Waiting(s, w);
      var k :| 0 <= k < |s.handlers| && s.handlers[k].Awaits(w);
      assert s'.handlers[k].Awaits(w);
    }
  }

  lemma DispatchBoard(g: Graph, f: Kernel, ref: map<Name, Data>, start: map<Name, Data>, head: Head, s: Job, h: nat)
    requires Known(g, s) && TensorsOk(g, ref, start, s) && FlightOk(g, ref, head, s) && OwnersOk(g, ref, s) && HeadOk(head, s)
    requires Enabled(g, s, Dispatch(h))
    ensures var s' := Apply(g, f, s, Dispatch(h));
            TensorsOk(g, ref, start, s') && FlightOk(g, ref, head, s') && OwnersOk(g, ref, s') && Known(g, s') && HeadOk(head, s')
  {
    var s' := Apply(g, f, s, Dispatch(h));
    var u := s.handlers[h].pc.task;
    assert Owned(s, h, u);
    assert forall w, x :: Published(g, s', w, x) <==> Published(g, s, w, x);
    forall k: nat, w | Owned(s', k, w)
      ensures Owned(s, k, w) && w != u
    {
      assert k != h;
      assert Owned(s, k, w);
    }
    forall w | w in s'.board.status && s'.board.status[w].Ready?
      ensures exists k: nat :: Owned(s', k, w)
    {
      var k: nat :| Owned(s, k, w);
      assert Owned(s', k, w);
    }
  }

  lemma DispatchOnce(g: Graph, f: Kernel, ref: map<Name, Data>, head: Head, s: Job, h: nat)
    requires FlightOk(g, ref, head, s) && OwnersOk(g, ref, s) && OnceOk(s) && Enabled(g, s, Dispatch(h))
    ensures OnceOk(Apply(g, f, s, Dispatch(h)))
  {
    var s' := Apply(g, f, s, Dispatch(h));
    var u := s.handlers[h].pc.task;
    assert Owned(s, h, u);
    assert u !in s.dispatched;
    assert forall t :: IsDone(s', t) <==> IsDone(s, t);
  }

  lemma DispatchCounts(g: Graph, f: Kernel, ref: map<Name, Data>, s: Job, h: nat)
    requires OwnersOk(g, ref, s) && CountOk(g, s) && Enabled(g, s, Dispatch(h))
    ensures CountOk(g, Apply(g, f, s, Dispatch(h)))
  {
    var s' := Apply(g, f, s, Dispatch(h));
    assert Owned(s, h, s.handlers[h].pc.task);
    assert DoneTasks(s') == DoneTasks(s);
    assert forall k: nat :: Last(s', k) <==> Last(s, k);
    assert forall k: nat :: k < |s.handlers| ==> (s'.handlers[k].pc.Exited? <==> s.handlers[k].pc.Exited?);
  }

  lemma DispatchPending(g: Graph, f: Kernel, ref: map<Name, Data>, s: Job, h: nat)
    requires OwnersOk(g, ref, s) && PendingOk(g, s) && Enabled(g, s, Dispatch(h))
    ensures PendingOk(g, Apply(g, f, s, Dispatch(h)))
  {
    var s' := Apply(g, f, s, Dispatch(h));
    assert Owned(s, h, s.handlers[h].pc.task);
    assert forall t :: IsDone(s', t) <==> IsDone(s, t);
    forall w | w in g.tasks && Waiting(s', w) && AllFeedersDone(g, s', w)
      ensures Pending(s', w)
    {
      assert AllFeedersDone(g, s, w) && Waiting(s, w);
      var k :| 0 <= k < |s.handlers| && s.handlers[k].Awaits(w);
      assert s'.handlers[k].Awaits(w);
    }
  }

  lemma ExitKeeps(g: Graph, f: Kernel, ref: map<Name, Data>, start: map<Name, Data>, head: Head, s: Job, h: nat)
    requires Inv(g, ref, start, head, s) && Enabled(g, s, Exit(h))
    ensures Inv(g, ref, start, head, Apply(g, f, s, Exit(h)))
  {
    var s' := Apply(g, f, s, Exit(h));
    assert forall w, x :: Published(g, s', w, x) <==> Published(g, s, w, x);
    assert forall k: nat, w :: Owned(s', k, w) <==> Owned(s, k, w);
    ExitCounts(g, f, s, h);
    ExitPending(g, f, s, h);
  }

  lemma ExitPending(g: Graph, f: Kernel, s: Job, h: nat)
    requires PendingOk(g, s) && Enabled(g, s, Exit(h))
    ensures PendingOk(g, Apply(g, f, s, Exit(h)))
  {
    var s' := Apply(g, f, s, Exit(h));
    forall w | w in g.tasks && Waiting(s', w) && AllFeedersDone(g, s', w)
      ensures Pending(s', w)
    {
      assert AllFeedersDone(g, s, w) by {
        assert forall t :: IsDone(s', t) <==> IsDone(s, t);
      }
      assert Waiting(s, w);
      var k :| 0 <= k < |s.handlers| && s.handlers[k].Awaits(w);
      assert s'.handlers[k].Awaits(w);
    }
  }

  lemma ExitCounts(g: Graph, f: Kernel, s: Job, h: nat)
    requires OnceOk(s) && CountOk(g, s) && Enabled(g, s, Exit(h))
    ensures OnceOk(Apply(g, f, s, Exit(h))) && CountOk(g, Apply(g, f, s, Exit(h)))
  {
    var s' := Apply(g, f, s, Exit(h));
    assert DoneTasks(s') == DoneTasks(s);
    assert forall k: nat :: Last(s', k) <==> Last(s, k);
    assert forall k: nat :: k != h && k < |s.handlers| ==> s'.handlers[k] == s.handlers[k];
    if Last(s, h) {
      assert Last(s', h) && s'.handlers[h].pc.Exited?;
      assert s.fired != 1;
    } else if s.fired == 1 {
      var k: nat :| Last(s, k) && s.handlers[k].pc.Exited?;
      assert Last(s', k) && s'.handlers[k].pc.Exited?;
    }
  }

  // ----- All steps -----

  lemma StepKeeps(g: Graph, f: Kernel, ref: map<Name, Data>, start: map<Name, Data>, head: Head, s: Job, e: Event)
    requires Setting(g, f, ref, start, head) && Inv(g, ref, start, head, s) && Enabled(g, s, e)
    ensures Inv(g, ref, start, head, Apply(g, f, s, e))
  {
    match e
    case Complete(t) =>
      CompleteTensors(g, f, ref, start, head, s, t);
      CompleteFlight(g, f, ref, head, s, t);
      CompleteCounts(g, f, ref, head, s, t);
      CompletePending(g, f, head, s, t);
    case Check(h) =>
      CheckOwners(g, f, ref, start, head, s, h);
      CheckCounts(g, f, s, h);
      CheckPending(g, f, ref, start, head, s, h);
      CheckKnown(g, f, head, s, h);
    case Load(h) =>
      LoadKeeps(g, f, ref, start, head, s, h);
    case Dispatch(h) =>
      DispatchBoard(g, f, ref, start, head, s, h);
      DispatchOnce(g, f, ref, head, s, h);
      DispatchCounts(g, f, ref, s, h);
      DispatchPending(g, f, ref, s, h);
    case Exit(h) =>
      ExitKeeps(g, f, ref, start, head, s, h);
  }

  lemma {:induction false} RunKeeps(g: Graph, f: Kernel, ref: map<Name, Data>, start: map<Name, Data>, head: Head, s: Job, es: seq<Event>)
    requires Setting(g, f, ref, start, head) && Inv(g, ref, start, head, s) && CanRun(g, f, s, es)
    ensures Inv(g, ref, start, head, After(g, f, s, es))
    decreases |es|
  {
    if es != [] {
      StepKeeps(g, f, ref, start, head, s, es[0]);
      RunKeeps(g, f, ref, start, head, Apply(g, f, s, es[0]), es[1..]);
    }
  }
}
