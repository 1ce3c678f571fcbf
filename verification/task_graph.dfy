/**
 The task graph of a model and its sequential meaning.
 */
module TaskGraph {
  import opened Common

  type Name = string
  type Data = seq<nat>

  /** A task is an unknown function of its input tensors, one result per output tensor. */
  type Kernel = (Name, Name, seq<Data>) -> Data

  datatype Task = Task(inputs: seq<Name>, outputs: seq<Name>, nexts: seq<Name>)

  /** The tasks by name, an order in which they can be run one by one, and the model inputs. */
  datatype Graph = Graph(tasks: map<Name, Task>, order: seq<Name>, given: map<Name, Data>)

  predicate HasAll(env: map<Name, Data>, xs: seq<Name>) {
    forall i :: 0 <= i < |xs| ==> xs[i] in env
  }

  /** The tensors named `xs`; one that is missing reads as empty. */
  function Lookup(env: map<Name, Data>, xs: seq<Name>): seq<Data> {
    seq(|xs|, i requires 0 <= i < |xs| => if xs[i] in env then env[xs[i]] else [])
  }

  /** The tensor map after task `t` published its outputs. */
  function Publish(env: map<Name, Data>, f: Kernel, t: Name, outs: seq<Name>, ins: seq<Data>): map<Name, Data> {
    env + map x | x in outs :: f(t, x, ins)
  }

  ghost predicate Feeds(t: Task, u: Task) {
    exists x :: x in t.outputs && x in u.inputs
  }

  /** The order names tasks of the graph. */
  ghost predicate Listed(g: Graph) {
    forall i :: 0 <= i < |g.order| ==> g.order[i] in g.tasks
  }

  ghost predicate MadeBefore(g: Graph, i: nat, x: Name)
    requires Listed(g)
  {
    exists j :: 0 <= j < i && j < |g.order| && x in g.tasks[g.order[j]].outputs
  }

  /** Every input is given or made by an earlier task. */
  ghost predicate Ordered(g: Graph)
    requires Listed(g)
  {
    forall i: nat, x :: i < |g.order| && x in g.tasks[g.order[i]].inputs ==> x in g.given || MadeBefore(g, i, x)
  }

  /** A tensor is given, or made by one task only. */
  ghost predicate OneProducer(g: Graph) {
    && (forall t, x :: t in g.tasks && x in g.tasks[t].outputs ==> x !in g.given)
    && (forall t, u, x :: t in g.tasks && u in g.tasks && x in g.tasks[t].outputs && x in g.tasks[u].outputs ==> t == u)
  }

  /** The successors of a task are the tasks that read one of its outputs. */
  ghost predicate Linked(g: Graph) {
    forall t, u {:trigger u in g.tasks[t].nexts} :: t in g.tasks ==>
      (u in g.tasks[t].nexts <==> u in g.tasks && Feeds(g.tasks[t], g.tasks[u]))
  }

  ghost predicate OrderComplete(g: Graph) {
    && Distinct(g.order)
    && (forall t :: t in g.tasks ==> t in g.order)
  }

  ghost predicate WellFormed(g: Graph) {
    Listed(g) && OrderComplete(g) && Ordered(g) && OneProducer(g) && Linked(g)
  }

  // ----- Running the tasks one by one -----

  /** The tensor map after the first `k` tasks of the order ran. */
  ghost function Evaluate(g: Graph, f: Kernel, k: nat): map<Name, Data>
    requires Listed(g) && k <= |g.order|
  {
    if k == 0 then g.given
    else RunTask(g, f, g.order[k - 1], Evaluate(g, f, k - 1))
  }

  ghost function RunTask(g: Graph, f: Kernel, t: Name, env: map<Name, Data>): map<Name, Data>
    requires t in g.tasks
  {
    Publish(env, f, t, g.tasks[t].outputs, Lookup(env, g.tasks[t].inputs))
  }

  ghost function Result(g: Graph, f: Kernel): map<Name, Data>
    requires Listed(g)
  {
    Evaluate(g, f, |g.order|)
  }

  lemma {:induction false} EvaluateHas(g: Graph, f: Kernel, k: nat, x: Name)
    requires Listed(g) && k <= |g.order|
    ensures x in g.given ==> x in Evaluate(g, f, k)
    ensures forall j :: 0 <= j < k && x in g.tasks[g.order[j]].outputs ==> x in Evaluate(g, f, k)
  {
    if k > 0 {
      EvaluateHas(g, f, k - 1, x);
    }
  }

  lemma {:induction false} EvaluateOnly(g: Graph, f: Kernel, k: nat, x: Name)
    requires Listed(g) && k <= |g.order| && x in Evaluate(g, f, k)
    ensures x in g.given || exists j :: 0 <= j < k && x in g.tasks[g.order[j]].outputs
  {
    if k > 0 && x !in g.tasks[g.order[k - 1]].outputs {
      EvaluateOnly(g, f, k - 1, x);
    }
  }

  /** Every task finds its inputs when its turn comes. */
  lemma {:induction false} InputsReady(g: Graph, f: Kernel, k: nat)
    requires Listed(g) && Ordered(g) && k < |g.order|
    ensures HasAll(Evaluate(g, f, k), g.tasks[g.order[k]].inputs)
  {
    var xs := g.tasks[g.order[k]].inputs;
    forall i | 0 <= i < |xs|
      ensures xs[i] in Evaluate(g, f, k)
    {
      EvaluateHas(g, f, k, xs[i]);
    }
  }

  /** No task from position `k` on makes a tensor that already exists there. */
  lemma NotMadeAgain(g: Graph, f: Kernel, k: nat, m: nat, x: Name)
    requires Listed(g) && Distinct(g.order) && OneProducer(g) && k <= m < |g.order| && x in Evaluate(g, f, k)
    ensures x !in g.tasks[g.order[m]].outputs
  {
    EvaluateOnly(g, f, k, x);
    if x !in g.given {
      var j :| 0 <= j < k && x in g.tasks[g.order[j]].outputs;
      assert g.order[j] != g.order[m];
    }
  }

  lemma RunTaskKeeps(g: Graph, f: Kernel, t: Name, env: map<Name, Data>, x: Name)
    requires t in g.tasks && x in env && x !in g.tasks[t].outputs
    ensures x in RunTask(g, f, t, env) && RunTask(g, f, t, env)[x] == env[x]
  {
  }

  lemma {:induction false} KeptWhileNotMade(g: Graph, f: Kernel, k: nat, m: nat, x: Name)
    requires Listed(g) && k <= m <= |g.order| && x in Evaluate(g, f, k)
    requires forall j :: k <= j < |g.order| ==> x !in g.tasks[g.order[j]].outputs
    ensures x in Evaluate(g, f, m) && Evaluate(g, f, m)[x] == Evaluate(g, f, k)[x]
    decreases m - k
  {
    if k < m {
      KeptWhileNotMade(g, f, k, m - 1, x);
      RunTaskKeeps(g, f, g.order[m - 1], Evaluate(g, f, m - 1), x);
    }
  }

  /** A tensor keeps its value once it exists. */
  lemma EvaluateStable(g: Graph, f: Kernel, k: nat, m: nat, x: Name)
    requires Listed(g) && Distinct(g.order) && OneProducer(g) && k <= m <= |g.order| && x in Evaluate(g, f, k)
    ensures x in Evaluate(g, f, m) && Evaluate(g, f, m)[x] == Evaluate(g, f, k)[x]
  {
    forall j | k <= j < |g.order|
      ensures x !in g.tasks[g.order[j]].outputs
    {
      NotMadeAgain(g, f, k, j, x);
    }
    KeptWhileNotMade(g, f, k, m, x);
  }

  ghost predicate SolvesTask(g: Graph, f: Kernel, env: map<Name, Data>, t: Name)
    requires t in g.tasks
  {
    var task := g.tasks[t];
    && HasAll(env, task.inputs)
    && forall x :: x in task.outputs ==> x in env && env[x] == f(t, x, Lookup(env, task.inputs))
  }

  /** `env` holds the given tensors and, for every task, what the task makes of its inputs. */
  ghost predicate Solves(g: Graph, f: Kernel, env: map<Name, Data>) {
    && (forall x :: x in g.given ==> x in env && env[x] == g.given[x])
    && (forall t :: t in g.tasks ==> SolvesTask(g, f, env, t))
  }

  lemma EvaluateWithin(g: Graph, f: Kernel, k: nat, m: nat)
    requires Listed(g) && Distinct(g.order) && OneProducer(g) && k <= m <= |g.order|
    ensures Within(Evaluate(g, f, k), Evaluate(g, f, m))
  {
    forall x | x in Evaluate(g, f, k)
      ensures x in Evaluate(g, f, m) && Evaluate(g, f, m)[x] == Evaluate(g, f, k)[x]
    {
      EvaluateStable(g, f, k, m, x);
    }
  }

  /** A task that ran on final inputs is solved for good. */
  lemma SolvedLater(g: Graph, f: Kernel, t: Name, env: map<Name, Data>, r: map<Name, Data>)
    requires t in g.tasks && HasAll(env, g.tasks[t].inputs) && Within(env, r) && Within(RunTask(g, f, t, env), r)
    ensures SolvesTask(g, f, r, t)
  {
    LookupSame(env, r, g.tasks[t].inputs);
  }

  lemma ResultSolvesTask(g: Graph, f: Kernel, k: nat)
    requires WellFormed(g) && k < |g.order|
    ensures SolvesTask(g, f, Result(g, f), g.order[k])
  {
    InputsReady(g, f, k);
    EvaluateWithin(g, f, k, |g.order|);
    EvaluateWithin(g, f, k + 1, |g.order|);
    assert Evaluate(g, f, k + 1) == RunTask(g, f, g.order[k], Evaluate(g, f, k));
    SolvedLater(g, f, g.order[k], Evaluate(g, f, k), Result(g, f));
  }

  /** `ins` holds the values of the tensors `xs`, each in its own position. */
  ghost predicate InPlace(env: map<Name, Data>, xs: seq<Name>, ins: seq<Data>) {
    |ins| == |xs| && forall i :: 0 <= i < |xs| ==> xs[i] in env && ins[i] == env[xs[i]]
  }

  /** Every task computes each of its outputs from its inputs, in the order it declares them. */
  ghost predicate Computes(g: Graph, f: Kernel, env: map<Name, Data>) {
    forall t, x, ins :: t in g.tasks && x in g.tasks[t].outputs && InPlace(env, g.tasks[t].inputs, ins) ==>
                          x in env && env[x] == f(t, x, ins)
  }

  lemma LookupInPlace(env: map<Name, Data>, xs: seq<Name>)
    requires HasAll(env, xs)
    ensures InPlace(env, xs, Lookup(env, xs))
    ensures forall ins :: InPlace(env, xs, ins) ==> ins == Lookup(env, xs)
  {
  }

  lemma SolutionComputes(g: Graph, f: Kernel, env: map<Name, Data>)
    requires Solves(g, f, env)
    ensures Computes(g, f, env)
    ensures forall t :: t in g.tasks ==> HasAll(env, g.tasks[t].inputs)
  {
    forall t, x, ins | t in g.tasks && x in g.tasks[t].outputs && InPlace(env, g.tasks[t].inputs, ins)
      ensures x in env && env[x] == f(t, x, ins)
    {
      assert SolvesTask(g, f, env, t);
      LookupInPlace(env, g.tasks[t].inputs);
    }
    forall t | t in g.tasks
      ensures HasAll(env, g.tasks[t].inputs)
    {
      assert SolvesTask(g, f, env, t);
    }
  }

  lemma ResultSolves(g: Graph, f: Kernel)
    requires WellFormed(g)
    ensures Solves(g, f, Result(g, f)) && Computes(g, f, Result(g, f))
    ensures forall t :: t in g.tasks ==> HasAll(Result(g, f), g.tasks[t].inputs)
  {
    SolvesAll(g, f);
    SolutionComputes(g, f, Result(g, f));
  }

  lemma SolvesAll(g: Graph, f: Kernel)
    requires WellFormed(g)
    ensures Solves(g, f, Result(g, f))
  {
    forall x | x in g.given
      ensures x in Result(g, f) && Result(g, f)[x] == g.given[x]
    {
      EvaluateStable(g, f, 0, |g.order|, x);
    }
    forall t | t in g.tasks
      ensures SolvesTask(g, f, Result(g, f), t)
    {
      var k :| 0 <= k < |g.order| && g.order[k] == t;
      ResultSolvesTask(g, f, k);
    }
  }

  lemma LookupSame(a: map<Name, Data>, b: map<Name, Data>, xs: seq<Name>)
    requires forall i :: 0 <= i < |xs| ==> xs[i] in a && xs[i] in b && b[xs[i]] == a[xs[i]]
    ensures Lookup(a, xs) == Lookup(b, xs)
  {
  }

  /** Every tensor of `a` is in `b` with the same value. */
  ghost predicate Within(a: map<Name, Data>, b: map<Name, Data>) {
    forall x :: x in a ==> x in b && b[x] == a[x]
  }

  lemma RunTaskWithin(g: Graph, f: Kernel, t: Name, a: map<Name, Data>, env: map<Name, Data>)
    requires t in g.tasks && Within(a, env) && HasAll(a, g.tasks[t].inputs) && SolvesTask(g, f, env, t)
    ensures Within(RunTask(g, f, t, a), env)
  {
    LookupSame(a, env, g.tasks[t].inputs);
  }

  /** The tensors of the graph are fixed by the tasks alone: anything that solves the graph
      agrees with the sequential evaluation, whichever order was used. */
  lemma {:induction false} SolutionUnique(g: Graph, f: Kernel, env: map<Name, Data>, k: nat)
    requires WellFormed(g) && Solves(g, f, env) && k <= |g.order|
    ensures Within(Evaluate(g, f, k), env)
  {
    if k > 0 {
      SolutionUnique(g, f, env, k - 1);
      InputsReady(g, f, k - 1);
      RunTaskWithin(g, f, g.order[k - 1], Evaluate(g, f, k - 1), env);
    }
  }

  lemma SolvesTransfer(g: Graph, h: Graph, f: Kernel, env: map<Name, Data>)
    requires g.tasks == h.tasks && g.given == h.given && Solves(h, f, env)
    ensures Solves(g, f, env)
  {
    forall t | t in g.tasks
      ensures SolvesTask(g, f, env, t)
    {
      assert SolvesTask(h, f, env, t);
    }
  }

  /** Two admissible orders of the same tasks compute the same tensors. */
  lemma OrderIrrelevant(g: Graph, h: Graph, f: Kernel)
    requires WellFormed(g) && WellFormed(h) && g.tasks == h.tasks && g.given == h.given
    ensures Result(g, f) == Result(h, f)
  {
    ResultSolves(g, f);
    ResultSolves(h, f);
    SolvesTransfer(g, h, f, Result(h, f));
    SolvesTransfer(h, g, f, Result(g, f));
    SolutionUnique(g, f, Result(h, f), |g.order|);
    SolutionUnique(h, f, Result(g, f), |h.order|);
    WithinBoth(Result(g, f), Result(h, f));
  }

  lemma WithinBoth(a: map<Name, Data>, b: map<Name, Data>)
    requires Within(a, b) && Within(b, a)
    ensures a == b
  {
  }

  // ----- Linking the tasks -----

  /** Tensor metadata of the model: its name and the tasks that read it. */
  datatype TensorInfo = TensorInfo(name: Name, users: seq<Name>)

  ghost predicate UsedBy(outputs: seq<TensorInfo>, u: Name) {
    exists i :: 0 <= i < |outputs| && u in outputs[i].users
  }

  /** The successors of a task: every known task that reads one of its outputs, once. */
  method LinkSuccessors(outputs: seq<TensorInfo>, known: set<Name>) returns (nexts: seq<Name>)
    ensures Distinct(nexts)
    ensures forall u :: u in nexts <==> u in known && UsedBy(outputs, u)
  {
    nexts := [];
    for i := 0 to |outputs|
      invariant Distinct(nexts)
      invariant forall u :: u in nexts <==> u in known && UsedBy(outputs[..i], u)
    {
      var users := outputs[i].users;
      for j := 0 to |users|
        invariant Distinct(nexts)
        invariant forall u :: u in nexts <==> u in known && (UsedBy(outputs[..i], u) || u in users[..j])
      {
        if users[j] in known && users[j] !in nexts {
          nexts := nexts + [users[j]];
        }
        assert users[..j + 1] == users[..j] + [users[j]];
      }
      assert users[..|users|] == users;
      assert outputs[..i + 1] == outputs[..i] + [outputs[i]];
      forall u
        ensures UsedBy(outputs[..i + 1], u) <==> UsedBy(outputs[..i], u) || u in users
      {
        UsedByStep(outputs, i, u);
      }
    }
    assert outputs[..|outputs|] == outputs;
  }

  lemma UsedByStep(outputs: seq<TensorInfo>, i: nat, u: Name)
    requires i < |outputs|
    ensures UsedBy(outputs[..i + 1], u) <==> UsedBy(outputs[..i], u) || u in outputs[i].users
  {
    if UsedBy(outputs[..i], u) {
      var k :| 0 <= k < i && u in outputs[..i][k].users;
      assert outputs[..i + 1][k] == outputs[..i][k];
    }
    if u in outputs[i].users {
      assert outputs[..i + 1][i] == outputs[i];
    }
    if UsedBy(outputs[..i + 1], u) {
      var k :| 0 <= k < i + 1 && u in outputs[..i + 1][k].users;
      assert k < i ==> outputs[..i][k] == outputs[..i + 1][k];
    }
  }

  /** The metadata of a task lists its outputs, each with exactly the tasks that read it. */
  ghost predicate DescribesOutputs(tasks: map<Name, Task>, t: Name, infos: seq<TensorInfo>)
    requires t in tasks
  {
    && (forall x :: x in tasks[t].outputs <==> exists i :: 0 <= i < |infos| && infos[i].name == x)
    && (forall i, u :: 0 <= i < |infos| && u in tasks ==> (u in infos[i].users <==> infos[i].name in tasks[u].inputs))
  }

  lemma UsedByReads(tasks: map<Name, Task>, t: Name, infos: seq<TensorInfo>, u: Name)
    requires t in tasks && u in tasks && DescribesOutputs(tasks, t, infos)
    ensures UsedBy(infos, u) <==> Feeds(tasks[t], tasks[u])
  {
    if UsedBy(infos, u) {
      var i :| 0 <= i < |infos| && u in infos[i].users;
      assert infos[i].name in tasks[t].outputs && infos[i].name in tasks[u].inputs;
    }
    if Feeds(tasks[t], tasks[u]) {
      var x :| x in tasks[t].outputs && x in tasks[u].inputs;
      var i :| 0 <= i < |infos| && infos[i].name == x;
      assert u in infos[i].users;
    }
  }

  /** Tasks of `a` and `b` agree but for their successors. */
  ghost predicate SameTasks(a: map<Name, Task>, b: map<Name, Task>) {
    a.Keys == b.Keys && forall t :: t in a ==> a[t].inputs == b[t].inputs && a[t].outputs == b[t].outputs
  }

  /** Link every task to its successors.  When the metadata describes the tasks, the graph that
      results is linked. */
  method LinkTasks(tasks: map<Name, Task>, names: seq<Name>, infos: map<Name, seq<TensorInfo>>) returns (linked: map<Name, Task>)
    requires (forall t :: t in tasks <==> t in names) && forall t :: t in tasks ==> t in infos
    ensures SameTasks(tasks, linked)
    ensures (forall t :: t in tasks ==> DescribesOutputs(tasks, t, infos[t])) ==> forall order, given :: Linked(Graph(linked, order, given))
  {
    linked := tasks;
    for k := 0 to |names|
      invariant SameTasks(tasks, linked)
      invariant forall t, u :: t in names[..k] ==> (u in linked[t].nexts <==> u in tasks && UsedBy(infos[t], u))
    {
      var t := names[k];
      assert t in names;
      var nexts := LinkSuccessors(infos[t], tasks.Keys);
      assert names[..k + 1] == names[..k] + [t];
      linked := linked[t := linked[t].(nexts := nexts)];
    }
    assert names[..|names|] == names;
    if forall t :: t in tasks ==> DescribesOutputs(tasks, t, infos[t]) {
      forall order, given
        ensures Linked(Graph(linked, order, given))
      {
        UsersAreFed(tasks, linked, infos);
      }
    }
  }

  lemma UsersAreFed(tasks: map<Name, Task>, linked: map<Name, Task>, infos: map<Name, seq<TensorInfo>>)
    requires SameTasks(tasks, linked) && (forall t :: t in tasks ==> t in infos && DescribesOutputs(tasks, t, infos[t]))
    requires forall t, u :: t in tasks ==> (u in linked[t].nexts <==> u in tasks && UsedBy(infos[t], u))
    ensures forall t, u {:trigger u in linked[t].nexts} :: t in linked ==> (u in linked[t].nexts <==> u in linked && Feeds(linked[t], linked[u]))
  {
    forall t, u | t in linked
      ensures u in linked[t].nexts <==> u in linked && Feeds(linked[t], linked[u])
    {
      if u in tasks {
        UsedByReads(tasks, t, infos[t], u);
      }
    }
  }
}
