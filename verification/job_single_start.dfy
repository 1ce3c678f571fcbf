/**
 Why the single-input entry point needs every other task to be fed by some task.
 */
module JobSingleStart {
  import opened Common
  import opened TaskGraph
  import opened JobProtocol
  import opened JobTheorems

  /** Task `u` has not been started, is in no handler's hands and awaits no check. */
  ghost predicate Untouched(s: Job, u: Name) {
    && u !in s.inflight && u !in s.dispatched && !IsDone(s, u)
    && forall h :: 0 <= h < |s.handlers| ==> u !in s.handlers[h].todo && !s.handlers[h].Owns(u)
  }

  ghost predicate Unfed(g: Graph, u: Name) {
    forall t :: t in g.tasks ==> u !in g.tasks[t].nexts
  }

  lemma StepLeavesUntouched(g: Graph, f: Kernel, s: Job, e: Event, u: Name)
    requires Unfed(g, u) && Untouched(s, u) && Enabled(g, s, e)
    ensures Untouched(Apply(g, f, s, e), u)
  {
    var s' := Apply(g, f, s, e);
    if !e.Complete? {
      var before, after := s.handlers[e.h], s'.handlers[e.h];
      assert u !in before.todo && !before.Owns(u);
      assert e.Check? ==> before.todo[0] != u;
      assert forall x :: x in after.todo ==> x in before.todo;
    }
  }

  /** A task that no task feeds is never dispatched by a single-input job, unless it is the
      head: such a job never finishes all its tasks. */
  lemma {:induction false} UnfedTaskNeverRuns(g: Graph, f: Kernel, s: Job, es: seq<Event>, u: Name)
    requires Unfed(g, u) && Untouched(s, u) && CanRun(g, f, s, es)
    ensures Untouched(After(g, f, s, es), u)
    decreases |es|
  {
    if es != [] {
      StepLeavesUntouched(g, f, s, es[0], u);
      UnfedTaskNeverRuns(g, f, Apply(g, f, s, es[0]), es[1..], u);
    }
  }

  /** After a single-input start, the tasks that stay untouched in every run include every
      task but the head that no task feeds. */
  lemma SingleStartStrands(g: Graph, f: Kernel, s: Job, head: Name, shared: map<Name, Data>, es: seq<Event>, u: Name)
    requires StartsSingle(g, s, head, shared) && CanRun(g, f, s, es)
    requires u in g.tasks && u != head && Unfed(g, u)
    ensures u !in After(g, f, s, es).dispatched && u !in DoneTasks(After(g, f, s, es))
  {
    assert Untouched(s, u);
    UnfedTaskNeverRuns(g, f, s, es, u);
  }

  /** Every task but the head is fed by some task. */
  ghost predicate OthersFed(g: Graph, head: Name) {
    forall u :: u in g.tasks && u != head ==> !Unfed(g, u)
  }

  /** In an order of the tasks the first one is fed by nothing, so it is the head. */
  lemma OthersFedSingleHead(g: Graph, head: Name)
    requires WellFormed(g) && head in g.tasks && OthersFed(g, head)
    ensures SingleHead(g, head)
  {
    var i :| 0 <= i < |g.order| && g.order[i] == head;
    var first := g.order[0];
    assert Unfed(g, first) by {
      forall t | t in g.tasks
        ensures first !in g.tasks[t].nexts
      {
        if first in g.tasks[t].nexts {
          FeederIsEarlier(g, t, 0);
        }
      }
    }
    assert first in g.tasks;
    assert first == head;
  }

  /** A single-input job whose activity has ended has finished every task if and only if every
      task but the head is fed by some task. */
  lemma SingleStartExact(g: Graph, f: Kernel, s: Job, head: Name, shared: map<Name, Data>, es: seq<Event>)
    requires WellFormed(g) && StartsSingle(g, s, head, shared) && CanRun(g, f, s, es) && Quiet(After(g, f, s, es))
    ensures DoneTasks(After(g, f, s, es)) == g.tasks.Keys <==> OthersFed(g, head)
  {
    if OthersFed(g, head) {
      OthersFedSingleHead(g, head);
      assert Starts(g, s, shared, Some(head));
      QuietMeansDone(g, f, shared, Some(head), After(g, f, s, es));
    } else {
      var u :| u in g.tasks && u != head && Unfed(g, u);
      SingleStartStrands(g, f, s, head, shared, es, u);
    }
  }

  /** Two tasks that read model inputs, perhaps the same one; a single-input job hands its one
      input to both. */
  function TwoHeads(a: Name, b: Name, x: Name, y: Name, p: Name, q: Name): Graph {
    Graph(map[a := Task([x], [p], []), b := Task([y], [q], [])], [a, b], map[x := [1], y := [1]])
  }

  lemma TwoHeadsOrdered(a: Name, b: Name, x: Name, y: Name, p: Name, q: Name)
    requires a != b
    ensures var g := TwoHeads(a, b, x, y, p, q); Listed(g) && OrderComplete(g) && Ordered(g)
  {
  }

  lemma TwoHeadsProducers(a: Name, b: Name, x: Name, y: Name, p: Name, q: Name)
    requires a != b && p != q && p != x && p != y && q != x && q != y
    ensures OneProducer(TwoHeads(a, b, x, y, p, q))
  {
    var g := TwoHeads(a, b, x, y, p, q);
    assert forall z :: z in g.tasks[a].outputs <==> z == p;
    assert forall z :: z in g.tasks[b].outputs <==> z == q;
  }

  lemma TwoHeadsLinked(a: Name, b: Name, x: Name, y: Name, p: Name, q: Name)
    requires a != b && p != x && p != y && q != x && q != y
    ensures Linked(TwoHeads(a, b, x, y, p, q)) && Unfed(TwoHeads(a, b, x, y, p, q), b)
  {
    var g := TwoHeads(a, b, x, y, p, q);
    forall t, u | t in g.tasks && u in g.tasks
      ensures !Feeds(g.tasks[t], g.tasks[u])
    {
      assert forall z :: z in g.tasks[t].outputs ==> z == p || z == q;
      assert forall z :: z in g.tasks[u].inputs ==> z == x || z == y;
    }
  }

  /** On a sound graph with two heads, a single-input job never runs the second one. */
  lemma SecondHeadStrands(a: Name, b: Name, x: Name, y: Name, p: Name, q: Name,
                                             f: Kernel, s: Job, shared: map<Name, Data>, es: seq<Event>)
    requires a != b && p != q && p != x && p != y && q != x && q != y
    requires StartsSingle(TwoHeads(a, b, x, y, p, q), s, a, shared) && CanRun(TwoHeads(a, b, x, y, p, q), f, s, es)
    ensures WellFormed(TwoHeads(a, b, x, y, p, q))
    ensures b !in After(TwoHeads(a, b, x, y, p, q), f, s, es).dispatched
  {
    TwoHeadsOrdered(a, b, x, y, p, q);
    TwoHeadsProducers(a, b, x, y, p, q);
    TwoHeadsLinked(a, b, x, y, p, q);
    SingleStartStrands(TwoHeads(a, b, x, y, p, q), f, s, a, shared, es, b);
  }
}
