/**
 The sections of an inference job that run under its lock, as methods on its fields.  Each
 does to the fields what the corresponding step of the job protocol does to its board.
 */
module InferenceJobs {
  import opened TaskGraph
  import opened JobProtocol

  /** What a finished request carries: its output tensors by name. */
  type Outputs = seq<(Name, Data)>

  /** The outputs a task makes of the inputs it was dispatched with. */
  function OutputsOf(f: Kernel, t: Name, task: Task, ins: seq<Data>): Outputs {
    seq(|task.outputs|, i requires 0 <= i < |task.outputs| => (task.outputs[i], f(t, task.outputs[i], ins)))
  }

  function Store(env: map<Name, Data>, outs: Outputs): map<Name, Data> {
    if outs == [] then env
    else Store(env, outs[..|outs| - 1])[outs[|outs| - 1].0 := outs[|outs| - 1].1]
  }

  /** No later output has the same name. */
  ghost predicate IsLastOutput(outs: Outputs, i: int) {
    0 <= i < |outs| && forall k :: i < k < |outs| ==> outs[k].0 != outs[i].0
  }

  ghost predicate Names(outs: Outputs, x: Name) {
    exists i :: 0 <= i < |outs| && outs[i].0 == x
  }

  /** `now` has every output under its name, the last one of each name, and is otherwise `env`. */
  ghost predicate Stored(env: map<Name, Data>, outs: Outputs, now: map<Name, Data>) {
    && (forall x :: x in now <==> x in env || Names(outs, x))
    && (forall i :: IsLastOutput(outs, i) ==> outs[i].0 in now && now[outs[i].0] == outs[i].1)
    && (forall x :: x in env && !Names(outs, x) ==> x in now && now[x] == env[x])
  }

  lemma {:induction false} StoreIsStored(env: map<Name, Data>, outs: Outputs)
    ensures Stored(env, outs, Store(env, outs))
  {
    if outs != [] {
      var n := |outs| - 1;
      StoreIsStored(env, outs[..n]);
      StoredStep(env, outs, n, Store(env, outs[..n]));
    }
  }

  lemma StoredStep(env: map<Name, Data>, outs: Outputs, n: nat, now: map<Name, Data>)
    requires n < |outs| && Stored(env, outs[..n], now) && |outs| == n + 1
    ensures Stored(env, outs, now[outs[n].0 := outs[n].1])
  {
    var pre := outs[..n];
    forall x
      ensures Names(outs, x) <==> Names(pre, x) || x == outs[n].0
    {
      if Names(pre, x) {
        var i :| 0 <= i < |pre| && pre[i].0 == x;
        assert outs[i].0 == x;
      }
      if Names(outs, x) {
        var i :| 0 <= i < |outs| && outs[i].0 == x;
        assert i < n ==> pre[i].0 == x;
      }
    }
    forall i | IsLastOutput(outs, i)
      ensures i == n || (IsLastOutput(pre, i) && outs[i].0 != outs[n].0)
    {
      assert i < n ==> pre[i] == outs[i];
    }
  }

  /** Storing a task's outputs one by one publishes them. */
  lemma {:induction false} StorePublishes(env: map<Name, Data>, f: Kernel, t: Name, task: Task, ins: seq<Data>, k: nat)
    requires k <= |task.outputs|
    ensures Store(env, OutputsOf(f, t, task, ins)[..k]) == Publish(env, f, t, task.outputs[..k], ins)
  {
    var outs := OutputsOf(f, t, task, ins);
    if k > 0 {
      StorePublishes(env, f, t, task, ins, k - 1);
      var x := task.outputs[k - 1];
      assert outs[..k] == outs[..k - 1] + [(x, f(t, x, ins))];
      StoreLast(env, outs[..k - 1], x, f(t, x, ins));
      PublishLast(env, f, t, task.outputs[..k - 1], x, ins);
      assert task.outputs[..k] == task.outputs[..k - 1] + [x];
    }
  }

  lemma StoreLast(env: map<Name, Data>, outs: Outputs, x: Name, d: Data)
    ensures Store(env, outs + [(x, d)]) == Store(env, outs)[x := d]
  {
    assert (outs + [(x, d)])[..|outs|] == outs;
  }

  lemma PublishLast(env: map<Name, Data>, f: Kernel, t: Name, xs: seq<Name>, x: Name, ins: seq<Data>)
    ensures Publish(env, f, t, xs + [x], ins) == Publish(env, f, t, xs, ins)[x := f(t, x, ins)]
  {
  }

  datatype Answer = Unknown | Counted(last: bool)
  datatype Request = NoRequest | Request(ins: seq<Data>)

  class InferenceJob {
    var tensors: map<Name, Data>
    var status: map<Name, Status>
    var doneCount: nat
    var outputCount: nat

    ghost function View(): Board
      reads this
    {
      Board(tensors, status, doneCount)
    }

    /** A fresh job over the named tasks: all idle, nothing done. */
    constructor (names: seq<Name>)
      ensures View() == Board(map[], map t | t in names :: Idle, 0)
      ensures outputCount == |names|
    {
      tensors, doneCount, outputCount := map[], 0, |names|;
      status := map[];
      new;
      for i := 0 to |names|
        invariant tensors == map[] && doneCount == 0 && outputCount == |names|
        invariant status == map t | t in names[..i] :: Idle
      {
        status := status[names[i] := Idle];
        assert names[..i + 1] == names[..i] + [names[i]];
      }
      assert names[..|names|] == names;
    }

    /** A request of task `name` completed: publish its outputs, mark it done, count it, and
        say whether it was the last.  A task the job does not know is refused, after its
        outputs were stored. */
    method PublishCompletion(name: Name, outputs: Outputs) returns (answer: Answer)
      modifies this
      ensures outputCount == old(outputCount)
      ensures tensors == Store(old(tensors), outputs) && Stored(old(tensors), outputs, tensors)
      ensures name !in old(status) ==> answer == Unknown && status == old(status) && doneCount == old(doneCount)
      ensures name in old(status) ==>
                && answer == Counted(doneCount == outputCount)
                && status == old(status)[name := Done] && doneCount == old(doneCount) + 1
      ensures forall f: Kernel, task, ins :: name in old(status) && outputs == OutputsOf(f, name, task, ins) ==>
                View() == Finish(old(View()), f, name, task, ins)
    {
      for i := 0 to |outputs|
        invariant tensors == Store(old(tensors), outputs[..i])
        invariant status == old(status) && doneCount == old(doneCount) && outputCount == old(outputCount)
      {
        tensors := tensors[outputs[i].0 := outputs[i].1];
        assert outputs[..i + 1][..i] == outputs[..i];
      }
      assert outputs[..|outputs|] == outputs;
      StoreIsStored(old(tensors), outputs);
      forall f: Kernel, task, ins | outputs == OutputsOf(f, name, task, ins)
        ensures tensors == Publish(old(tensors), f, name, task.outputs, ins)
      {
        StorePublishes(old(tensors), f, name, task, ins, |task.outputs|);
        assert task.outputs[..|task.outputs|] == task.outputs;
      }
      if name !in status {
        return Unknown;
      }
      status := status[name := Done];
      doneCount := doneCount + 1;
      answer := Counted(doneCount == outputCount);
    }

    /** Test-and-set of a task to ready: exactly when it is idle and none of its inputs is
        missing. */
    method CheckAndSetTaskReady(name: Name, task: Task) returns (ready: bool)
      modifies this
      ensures outputCount == old(outputCount)
      ensures ready <==> CanStart(old(View()), name, task)
      ensures ready <==> name in old(status) && old(status)[name].Idle? && forall i :: 0 <= i < |task.inputs| ==> task.inputs[i] in tensors
      ensures View() == if ready then SetStatus(old(View()), name, Ready) else old(View())
    {
      if name !in status || !status[name].Idle? {
        return false;
      }
      var missing := [];
      for i := 0 to |task.inputs|
        invariant missing == [] <==> forall j :: 0 <= j < i ==> task.inputs[j] in tensors
      {
        if task.inputs[i] !in tensors {
          missing := missing + [task.inputs[i]];
        }
      }
      if missing != [] {
        return false;
      }
      status := status[name := Ready];
      return true;
    }

    /** Turn a ready task into a request that carries its inputs.  Were an input missing, the
        task would go back to idle without a request. */
    method ProcessReadyTask(name: Name, task: Task) returns (request: Request)
      modifies this
      ensures outputCount == old(outputCount) && tensors == old(tensors) && doneCount == old(doneCount)
      ensures request.Request? ==> InPlace(tensors, task.inputs, request.ins)
      ensures request.Request? <==> name in old(status) && old(status)[name].Ready? && forall i :: 0 <= i < |task.inputs| ==> task.inputs[i] in tensors
      ensures !(name in old(status) && old(status)[name].Ready?) ==> request == NoRequest && View() == old(View())
      ensures name in old(status) && old(status)[name].Ready? ==>
                if HasAll(tensors, task.inputs) then
                  request == Request(Lookup(tensors, task.inputs)) && View() == SetStatus(old(View()), name, Busy)
                else
                  request == NoRequest && View() == SetStatus(old(View()), name, Idle)
    {
      if name !in status || !status[name].Ready? {
        return NoRequest;
      }
      var ins: seq<Data> := [];
      var absent := false;
      for i := 0 to |task.inputs|
        invariant |ins| == i && forall j :: 0 <= j < i ==> ins[j] == Lookup(tensors, task.inputs)[j]
        invariant absent <==> exists j :: 0 <= j < i && task.inputs[j] !in tensors
      {
        if task.inputs[i] in tensors {
          ins := ins + [tensors[task.inputs[i]]];
        } else {
          ins := ins + [[]];
          absent := true;
        }
      }
      assert ins == Lookup(tensors, task.inputs);
      if absent {
        status := status[name := Idle];
        return NoRequest;
      }
      status := status[name := Busy];
      return Request(ins);
    }
  }
}
