/**
 Where each model output lies in the user's buffer.  The offsets are computed in several places
 by different searches; for outputs that are distinct and each made by one tail task they agree.
 */
module OutputLayout {
  import opened Common
  import opened Cells

  type Name = string

  datatype Tensor = Tensor(name: Name, size: nat)

  /** `ppu` is the output size of a PPU task. */
  datatype Task = Task(inputs: seq<Name>, outputs: seq<Tensor>, tail: bool, ppu: Option<nat>)

  // ----- Searches by name -----

  function CountIn(outs: seq<Tensor>, x: Name): nat {
    if outs == [] then 0 else CountIn(outs[..|outs| - 1], x) + if outs[|outs| - 1].name == x then 1 else 0
  }

  function SumIn(outs: seq<Tensor>, x: Name): nat {
    if outs == [] then 0 else SumIn(outs[..|outs| - 1], x) + if outs[|outs| - 1].name == x then outs[|outs| - 1].size else 0
  }

  /** Size of the first tensor of that name. */
  function FirstIn(outs: seq<Tensor>, x: Name): Option<nat> {
    if outs == [] then None
    else
      var pre, last := FirstIn(outs[..|outs| - 1], x), outs[|outs| - 1];
      if pre.Some? then pre else if last.name == x then Some(last.size) else None
  }

  /** How many tensors are called `x`; with `tails`, those of tail tasks only. */
  function CountAll(tasks: seq<Task>, x: Name, tails: bool): nat {
    if tasks == [] then 0
    else
      var last := tasks[|tasks| - 1];
      CountAll(tasks[..|tasks| - 1], x, tails) + if tails && !last.tail then 0 else CountIn(last.outputs, x)
  }

  function SumAll(tasks: seq<Task>, x: Name): nat {
    if tasks == [] then 0 else SumAll(tasks[..|tasks| - 1], x) + SumIn(tasks[|tasks| - 1].outputs, x)
  }

  function FirstAll(tasks: seq<Task>, x: Name): Option<nat> {
    if tasks == [] then None
    else
      var pre := FirstAll(tasks[..|tasks| - 1], x);
      if pre.Some? then pre else FirstIn(tasks[|tasks| - 1].outputs, x)
  }

  /** The first match of every tail task, added up. */
  function TailSum(tasks: seq<Task>, x: Name): nat {
    if tasks == [] then 0
    else
      var last := tasks[|tasks| - 1];
      TailSum(tasks[..|tasks| - 1], x) + if last.tail && FirstIn(last.outputs, x).Some? then FirstIn(last.outputs, x).value else 0
  }

  /** One tensor has that name, and a tail task makes it. */
  predicate OneTailMakes(tasks: seq<Task>, x: Name) {
    CountAll(tasks, x, false) == 1 && CountAll(tasks, x, true) == 1
  }

  lemma {:induction false} InOnce(outs: seq<Tensor>, x: Name)
    ensures CountIn(outs, x) == 0 ==> SumIn(outs, x) == 0 && FirstIn(outs, x) == None
    ensures CountIn(outs, x) == 1 ==> FirstIn(outs, x) == Some(SumIn(outs, x))
  {
    if outs != [] {
      InOnce(outs[..|outs| - 1], x);
    }
  }

  lemma {:induction false} TailsCounted(tasks: seq<Task>, x: Name)
    ensures CountAll(tasks, x, true) <= CountAll(tasks, x, false)
  {
    if tasks != [] {
      TailsCounted(tasks[..|tasks| - 1], x);
    }
  }

  /** All searches find the same size. */
  lemma {:induction false} SearchesAgree(tasks: seq<Task>, x: Name)
    ensures CountAll(tasks, x, false) == 0 ==> SumAll(tasks, x) == 0 && FirstAll(tasks, x) == None
    ensures CountAll(tasks, x, false) == 1 ==> FirstAll(tasks, x) == Some(SumAll(tasks, x))
    ensures CountAll(tasks, x, true) == 0 ==> TailSum(tasks, x) == 0
    ensures OneTailMakes(tasks, x) ==> TailSum(tasks, x) == SumAll(tasks, x)
  {
    if tasks != [] {
      var pre := tasks[..|tasks| - 1];
      SearchesAgree(pre, x);
      TailsCounted(pre, x);
      InOnce(tasks[|tasks| - 1].outputs, x);
    }
  }

  /** Output `k` of task `i` is called `x`. */
  predicate IsAt(tasks: seq<Task>, i: int, k: int, x: Name) {
    0 <= i < |tasks| && 0 <= k < |tasks[i].outputs| && tasks[i].outputs[k].name == x
  }

  /** A tensor that a tail task makes and no other tensor shares its name: the counts and sums
      found by name are of that tensor. */
  lemma OneTailMeans(tasks: seq<Task>, i: nat, k: nat, x: Name)
    requires IsAt(tasks, i, k, x) && tasks[i].tail && forall i', k' :: IsAt(tasks, i', k', x) ==> i' == i && k' == k
    ensures OneTailMakes(tasks, x) && SumAll(tasks, x) == tasks[i].outputs[k].size
  {
    assert forall k' :: 0 <= k' < |tasks[i].outputs| && tasks[i].outputs[k'].name == x ==> IsAt(tasks, i, k', x);
    OneIn(tasks[i].outputs, k, x);
    forall i' | 0 <= i' < |tasks| && i' != i
      ensures CountIn(tasks[i'].outputs, x) == 0 && SumIn(tasks[i'].outputs, x) == 0
    {
      assert forall k' :: 0 <= k' < |tasks[i'].outputs| && tasks[i'].outputs[k'].name == x ==> IsAt(tasks, i', k', x);
      NoneIn(tasks[i'].outputs, x);
    }
    OneOf(tasks, i, x);
  }

  lemma {:induction false} NoneIn(outs: seq<Tensor>, x: Name)
    requires forall k :: 0 <= k < |outs| ==> outs[k].name != x
    ensures CountIn(outs, x) == 0 && SumIn(outs, x) == 0
  {
    if outs != [] {
      NoneIn(outs[..|outs| - 1], x);
    }
  }

  lemma {:induction false} OneIn(outs: seq<Tensor>, k: nat, x: Name)
    requires k < |outs| && outs[k].name == x && forall j :: 0 <= j < |outs| && outs[j].name == x ==> j == k
    ensures CountIn(outs, x) == 1 && SumIn(outs, x) == outs[k].size
  {
    var pre := outs[..|outs| - 1];
    if k == |outs| - 1 {
      NoneIn(pre, x);
    } else {
      assert outs[|outs| - 1].name != x;
      OneIn(pre, k, x);
    }
  }

  lemma {:induction false} NoneOf(tasks: seq<Task>, x: Name)
    requires forall j :: 0 <= j < |tasks| ==> CountIn(tasks[j].outputs, x) == 0 && SumIn(tasks[j].outputs, x) == 0
    ensures CountAll(tasks, x, false) == 0 && CountAll(tasks, x, true) == 0 && SumAll(tasks, x) == 0
  {
    if tasks != [] {
      NoneOf(tasks[..|tasks| - 1], x);
    }
  }

  lemma {:induction false} OneOf(tasks: seq<Task>, i: nat, x: Name)
    requires i < |tasks| && tasks[i].tail && CountIn(tasks[i].outputs, x) == 1
    requires forall j :: 0 <= j < |tasks| && j != i ==> CountIn(tasks[j].outputs, x) == 0 && SumIn(tasks[j].outputs, x) == 0
    ensures OneTailMakes(tasks, x) && SumAll(tasks, x) == SumIn(tasks[i].outputs, x)
  {
    var pre := tasks[..|tasks| - 1];
    if i == |tasks| - 1 {
      NoneOf(pre, x);
    } else {
      assert CountIn(tasks[|tasks| - 1].outputs, x) == 0;
      OneOf(pre, i, x);
    }
  }

  /** The first tensor of a name is the one no earlier tensor shares it with. */
  lemma {:induction false} FirstInMeans(outs: seq<Tensor>, k: nat, x: Name)
    requires k <= |outs| && forall j :: 0 <= j < k ==> outs[j].name != x
    ensures FirstIn(outs[..k], x) == None
    ensures k < |outs| && outs[k].name == x ==> FirstIn(outs, x) == Some(outs[k].size)
  {
    if k > 0 {
      FirstInMeans(outs, k - 1, x);
      assert outs[..k][..k - 1] == outs[..k - 1];
    }
    if k < |outs| && outs[k].name == x {
      assert outs[..k + 1][..k] == outs[..k];
      FirstKept(outs, k + 1, x);
    }
  }

  lemma {:induction false} FirstAllMeans(tasks: seq<Task>, i: nat, k: nat, x: Name)
    requires IsAt(tasks, i, k, x) && forall i', k' :: IsAt(tasks, i', k', x) ==> i' > i || (i' == i && k' >= k)
    ensures FirstAll(tasks, x) == Some(tasks[i].outputs[k].size)
  {
    forall j | 0 <= j < k
      ensures tasks[i].outputs[j].name != x
    {
      assert !IsAt(tasks, i, j, x);
    }
    FirstInMeans(tasks[i].outputs, k, x);
    NothingBefore(tasks, i, x);
    assert tasks[..i + 1][..i] == tasks[..i];
    FirstAllKept(tasks, i + 1, x);
  }

  lemma {:induction false} NothingBefore(tasks: seq<Task>, i: nat, x: Name)
    requires i <= |tasks| && forall i', k' :: IsAt(tasks, i', k', x) ==> i' >= i
    ensures FirstAll(tasks[..i], x) == None
  {
    if i > 0 {
      NothingBefore(tasks, i - 1, x);
      assert tasks[..i][..i - 1] == tasks[..i - 1];
      var outs := tasks[i - 1].outputs;
      forall j | 0 <= j < |outs|
        ensures outs[j].name != x
      {
        assert !IsAt(tasks, i - 1, j, x);
      }
      FirstInMeans(outs, |outs|, x);
      assert outs[..|outs|] == outs;
    }
  }

  /** The sums run over all tensors, and for the tail tasks over the first match of each. */
  lemma {:induction false} SumsAdd(a: seq<Task>, b: seq<Task>, x: Name)
    ensures SumAll(a + b, x) == SumAll(a, x) + SumAll(b, x)
    ensures TailSum(a + b, x) == TailSum(a, x) + TailSum(b, x)
  {
    if b == [] {
      assert a + b == a;
    } else {
      assert (a + b)[..|a + b| - 1] == a + b[..|b| - 1];
      SumsAdd(a, b[..|b| - 1], x);
    }
  }

  lemma {:induction false} SumInAdds(a: seq<Tensor>, b: seq<Tensor>, x: Name)
    ensures SumIn(a + b, x) == SumIn(a, x) + SumIn(b, x)
  {
    if b == [] {
      assert a + b == a;
    } else {
      assert (a + b)[..|a + b| - 1] == a + b[..|b| - 1];
      SumInAdds(a, b[..|b| - 1], x);
    }
  }

  lemma SumsOfOne(task: Task, o: Tensor, x: Name)
    ensures SumIn([o], x) == if o.name == x then o.size else 0
    ensures SumAll([task], x) == SumIn(task.outputs, x)
    ensures TailSum([task], x) == if task.tail && FirstIn(task.outputs, x).Some? then FirstIn(task.outputs, x).value else 0
  {
    assert [o][..0] == [] && [task][..0] == [];
    assert SumIn([], x) == 0 && SumAll([], x) == 0 && TailSum([], x) == 0;
  }

  // ----- Prefix sums -----

  function Sizes(tasks: seq<Task>, order: seq<Name>): seq<nat> {
    seq(|order|, i requires 0 <= i < |order| => SumAll(tasks, order[i]))
  }

  /** Sum of the first `i` sizes. */
  function Prefix(sizes: seq<nat>, i: nat): nat
    requires i <= |sizes|
  {
    if i == 0 then 0 else Prefix(sizes, i - 1) + sizes[i - 1]
  }

  lemma {:induction false} PrefixMonotone(sizes: seq<nat>, i: nat, j: nat)
    requires i <= j <= |sizes|
    ensures Prefix(sizes, i) <= Prefix(sizes, j)
    decreases j - i
  {
    if i < j {
      PrefixMonotone(sizes, i, j - 1);
    }
  }

  /** Distinct outputs, each made by exactly one tail task. */
  ghost predicate WellOrdered(tasks: seq<Task>, order: seq<Name>) {
    Distinct(order) && forall i :: 0 <= i < |order| ==> OneTailMakes(tasks, order[i])
  }

  /** `offsets` gives every output the sum of the sizes before it. */
  ghost predicate IsLayout(tasks: seq<Task>, order: seq<Name>, offsets: map<Name, nat>) {
    && (forall x :: x in offsets <==> x in order)
    && AtPrefixes(tasks, order, offsets)
  }

  ghost predicate AtPrefixes(tasks: seq<Task>, order: seq<Name>, offsets: map<Name, nat>) {
    forall i :: 0 <= i < |order| ==> order[i] in offsets && offsets[order[i]] == Prefix(Sizes(tasks, order), i)
  }

  /** In plain terms: the first output is at zero and each follows the one before it. */
  lemma {:induction false} LayoutMeans(tasks: seq<Task>, order: seq<Name>, offsets: map<Name, nat>, i: nat)
    requires AtPrefixes(tasks, order, offsets) && i < |order|
    ensures order[i] in offsets
    ensures i == 0 ==> offsets[order[i]] == 0
    ensures i > 0 ==> order[i - 1] in offsets && offsets[order[i]] == offsets[order[i - 1]] + SumAll(tasks, order[i - 1])
  {
    if i > 0 {
      assert Sizes(tasks, order)[i - 1] == SumAll(tasks, order[i - 1]);
    }
  }

  // ----- The registry and the cached offsets -----

  method FindFirst(tasks: seq<Task>, x: Name) returns (r: Option<nat>)
    ensures r == FirstAll(tasks, x)
  {
    for i := 0 to |tasks|
      invariant FirstAll(tasks[..i], x) == None
    {
      assert tasks[..i + 1][..i] == tasks[..i];
      var f := FirstOutput(tasks[i].outputs, x);
      if f.Some? {
        FirstAllKept(tasks, i + 1, x);
        return f;
      }
    }
    assert tasks[..|tasks|] == tasks;
    r := None;
  }

  lemma {:induction false} FirstKept(outs: seq<Tensor>, k: nat, x: Name)
    requires k <= |outs| && FirstIn(outs[..k], x).Some?
    ensures FirstIn(outs, x) == FirstIn(outs[..k], x)
  {
    if k == |outs| {
      assert outs[..k] == outs;
    } else {
      var pre := outs[..|outs| - 1];
      assert pre[..k] == outs[..k];
      FirstKept(pre, k, x);
    }
  }

  lemma {:induction false} FirstAllKept(tasks: seq<Task>, k: nat, x: Name)
    requires k <= |tasks| && FirstAll(tasks[..k], x).Some?
    ensures FirstAll(tasks, x) == FirstAll(tasks[..k], x)
  {
    if k == |tasks| {
      assert tasks[..k] == tasks;
    } else {
      var pre := tasks[..|tasks| - 1];
      assert pre[..k] == tasks[..k];
      FirstAllKept(pre, k, x);
    }
  }

  /** Some task reads or makes a tensor of that name. */
  ghost predicate Named(tasks: seq<Task>, x: Name) {
    exists i :: 0 <= i < |tasks| && (x in tasks[i].inputs || Makes(tasks[i], x))
  }

  ghost predicate Makes(task: Task, x: Name) {
    exists k :: 0 <= k < |task.outputs| && task.outputs[k].name == x
  }

  /** The names of all tensors of the model. */
  method CollectNames(tasks: seq<Task>) returns (names: seq<Name>)
    ensures forall x :: x in names <==> Named(tasks, x)
  {
    names := [];
    for i := 0 to |tasks|
      invariant forall x :: x in names <==> Named(tasks[..i], x)
    {
      var outs := OutputNames(tasks[i].outputs);
      NamedStep(tasks, i);
      names := names + tasks[i].inputs + outs;
    }
    assert tasks[..|tasks|] == tasks;
  }

  lemma NamedStep(tasks: seq<Task>, i: nat)
    requires i < |tasks|
    ensures forall x :: Named(tasks[..i + 1], x) <==> Named(tasks[..i], x) || x in tasks[i].inputs || Makes(tasks[i], x)
  {
    var pre, now := tasks[..i], tasks[..i + 1];
    forall x
      ensures Named(now, x) <==> Named(pre, x) || x in tasks[i].inputs || Makes(tasks[i], x)
    {
      if Named(pre, x) {
        var k :| 0 <= k < |pre| && (x in pre[k].inputs || Makes(pre[k], x));
        assert now[k] == pre[k];
      }
      if x in tasks[i].inputs || Makes(tasks[i], x) {
        assert now[i] == tasks[i];
      }
      if Named(now, x) {
        var k :| 0 <= k < |now| && (x in now[k].inputs || Makes(now[k], x));
        assert k < i ==> pre[k] == now[k];
      }
    }
  }

  method OutputNames(outs: seq<Tensor>) returns (names: seq<Name>)
    ensures forall x :: x in names <==> exists k :: 0 <= k < |outs| && outs[k].name == x
  {
    names := [];
    for i := 0 to |outs|
      invariant forall x :: x in names <==> exists k :: 0 <= k < i && outs[k].name == x
    {
      names := names + [outs[i].name];
    }
  }

  /** A tensor that is counted is named. */
  lemma {:induction false} CountedNamed(tasks: seq<Task>, x: Name)
    requires CountAll(tasks, x, false) > 0
    ensures Named(tasks, x)
  {
    var n := |tasks| - 1;
    if CountIn(tasks[n].outputs, x) > 0 {
      CountedMade(tasks[n].outputs, x);
      assert Makes(tasks[n], x);
    } else {
      var pre := tasks[..n];
      CountedNamed(pre, x);
      var k :| 0 <= k < |pre| && (x in pre[k].inputs || Makes(pre[k], x));
      assert pre[k] == tasks[k];
    }
  }

  lemma {:induction false} CountedMade(outs: seq<Tensor>, x: Name)
    requires CountIn(outs, x) > 0
    ensures exists k :: 0 <= k < |outs| && outs[k].name == x
  {
    var n := |outs| - 1;
    if outs[n].name != x {
      var pre := outs[..n];
      CountedMade(pre, x);
      var k :| 0 <= k < |pre| && pre[k].name == x;
      assert outs[k] == pre[k];
    }
  }

  /** Size of each tensor of the model by name, from its first producer; zero when no task makes it. */
  ghost predicate IsRegistry(tasks: seq<Task>, reg: map<Name, nat>) {
    && (forall x :: x in reg <==> Named(tasks, x))
    && (forall x :: x in reg ==> reg[x] == SizeOrZero(tasks, x))
  }

  function SizeOrZero(tasks: seq<Task>, x: Name): nat {
    if FirstAll(tasks, x).Some? then FirstAll(tasks, x).value else 0
  }

  method BuildRegistry(tasks: seq<Task>) returns (reg: map<Name, nat>)
    ensures IsRegistry(tasks, reg)
  {
    reg := map[];
    var names := CollectNames(tasks);
    for i := 0 to |names|
      invariant forall x :: x in reg <==> x in names[..i]
      invariant forall x :: x in reg ==> reg[x] == SizeOrZero(tasks, x)
    {
      var f := FindFirst(tasks, names[i]);
      assert names[..i + 1] == names[..i] + [names[i]];
      reg := reg[names[i] := if f.Some? then f.value else 0];
    }
    assert names[..|names|] == names;
  }

  /** Every output of a well-ordered model is in its registry. */
  lemma OutputsRegistered(tasks: seq<Task>, reg: map<Name, nat>, order: seq<Name>)
    requires IsRegistry(tasks, reg) && WellOrdered(tasks, order)
    ensures forall x :: x in order ==> x in reg
  {
    forall x | x in order
      ensures x in reg
    {
      var i :| 0 <= i < |order| && order[i] == x;
      assert OneTailMakes(tasks, order[i]);
      CountedNamed(tasks, x);
    }
  }

  /** The first `i` outputs are laid out, and `current` is where the next one goes. */
  ghost predicate LaidOut(tasks: seq<Task>, order: seq<Name>, offsets: map<Name, nat>, current: nat, i: nat)
    requires i <= |order|
  {
    && current == Prefix(Sizes(tasks, order), i)
    && forall k :: 0 <= k < i ==> order[k] in offsets && offsets[order[k]] == Prefix(Sizes(tasks, order), k)
  }

  lemma LayNext(tasks: seq<Task>, order: seq<Name>, offsets: map<Name, nat>, current: nat, i: nat)
    requires i < |order| && WellOrdered(tasks, order) && LaidOut(tasks, order, offsets, current, i)
    ensures FirstAll(tasks, order[i]).Some?
    ensures LaidOut(tasks, order, offsets[order[i] := current], current + FirstAll(tasks, order[i]).value, i + 1)
  {
    SearchesAgree(tasks, order[i]);
    assert OneTailMakes(tasks, order[i]);
    assert forall k :: 0 <= k < i ==> order[k] != order[i];
    assert Sizes(tasks, order)[i] == SumAll(tasks, order[i]);
  }

  /** The names laid out so far. */
  ghost predicate NamesLaid(order: seq<Name>, offsets: map<Name, nat>, reg: map<Name, nat>, i: nat)
    requires i <= |order|
  {
    forall x :: x in offsets <==> x in order[..i] && x in reg
  }

  lemma NamesStep(order: seq<Name>, offsets: map<Name, nat>, reg: map<Name, nat>, i: nat, v: nat)
    requires i < |order| && NamesLaid(order, offsets, reg, i)
    ensures NamesLaid(order, if order[i] in reg then offsets[order[i] := v] else offsets, reg, i + 1)
  {
    assert order[..i + 1] == order[..i] + [order[i]];
  }

  lemma NamesAll(order: seq<Name>, offsets: map<Name, nat>, reg: map<Name, nat>)
    requires NamesLaid(order, offsets, reg, |order|)
    ensures forall x :: x in offsets <==> x in order && x in reg
  {
    assert order[..|order|] == order;
  }

  /** Running offsets over the outputs, from the registry; unknown names are skipped. */
  method CalculateTensorOffsets(tasks: seq<Task>, reg: map<Name, nat>, order: seq<Name>) returns (offsets: map<Name, nat>)
    requires IsRegistry(tasks, reg)
    ensures WellOrdered(tasks, order) ==> IsLayout(tasks, order, offsets)
    ensures forall x :: x in offsets <==> x in order && x in reg
  {
    offsets := map[];
    var current: nat := 0;
    ghost var proper := WellOrdered(tasks, order);
    if proper {
      OutputsRegistered(tasks, reg, order);
    }
    for i := 0 to |order|
      invariant NamesLaid(order, offsets, reg, i)
      invariant proper ==> LaidOut(tasks, order, offsets, current, i)
    {
      NamesStep(order, offsets, reg, i, current);
      if proper {
        LayNext(tasks, order, offsets, current, i);
        assert order[i] in order && order[i] in reg && reg[order[i]] == FirstAll(tasks, order[i]).value;
      }
      if order[i] in reg {
        offsets := offsets[order[i] := current];
        current := current + reg[order[i]];
      }
    }
    NamesAll(order, offsets, reg);
  }

  /** The offsets `GetOutputs` computes, searching the tasks instead. */
  method GetOutputsOffsets(tasks: seq<Task>, order: seq<Name>) returns (offsets: map<Name, nat>)
    ensures WellOrdered(tasks, order) ==> IsLayout(tasks, order, offsets)
    ensures forall x :: x in offsets <==> x in order
  {
    offsets := map[];
    var cumulative: nat := 0;
    ghost var proper := WellOrdered(tasks, order);
    for i := 0 to |order|
      invariant forall x :: x in offsets <==> x in order[..i]
      invariant proper ==> LaidOut(tasks, order, offsets, cumulative, i)
    {
      assert order[..i + 1] == order[..i] + [order[i]];
      if proper {
        LayNext(tasks, order, offsets, cumulative, i);
      }
      offsets := offsets[order[i] := cumulative];
      var f := FindFirst(tasks, order[i]);
      if f.Some? {
        cumulative := cumulative + f.value;
      }
    }
    assert order[..|order|] == order;
  }

  /** The layout is the only one: cached offsets and `GetOutputs` offsets are equal. */
  lemma LayoutUnique(tasks: seq<Task>, order: seq<Name>, a: map<Name, nat>, b: map<Name, nat>)
    requires IsLayout(tasks, order, a) && IsLayout(tasks, order, b)
    ensures a == b
  {
    forall x | x in a
      ensures x in b && a[x] == b[x]
    {
      var i :| 0 <= i < |order| && order[i] == x;
      assert order[i] in a && order[i] in b;
    }
  }

  /** The output size of the first PPU task. */
  function FirstPpu(tasks: seq<Task>): Option<nat> {
    if tasks == [] then None
    else
      var pre := FirstPpu(tasks[..|tasks| - 1]);
      if pre.Some? then pre else tasks[|tasks| - 1].ppu
  }

  lemma {:induction false} FirstPpuKept(tasks: seq<Task>, k: nat)
    requires k <= |tasks| && FirstPpu(tasks[..k]).Some?
    ensures FirstPpu(tasks) == FirstPpu(tasks[..k])
  {
    if k == |tasks| {
      assert tasks[..k] == tasks;
    } else {
      var pre := tasks[..|tasks| - 1];
      assert pre[..k] == tasks[..k];
      FirstPpuKept(pre, k);
    }
  }

  lemma {:induction false} FirstPpuMeans(tasks: seq<Task>)
    ensures FirstPpu(tasks).None? <==> forall i :: 0 <= i < |tasks| ==> tasks[i].ppu.None?
    ensures forall i :: 0 <= i < |tasks| && tasks[i].ppu.Some? && (forall k :: 0 <= k < i ==> tasks[k].ppu.None?) ==> FirstPpu(tasks) == tasks[i].ppu
  {
    if tasks != [] {
      var pre := tasks[..|tasks| - 1];
      assert forall i :: 0 <= i < |pre| ==> pre[i] == tasks[i];
      FirstPpuMeans(pre);
    }
  }

  /** The size of the user's buffer: the end of the layout, the size of the PPU task if there is
      one, or zero when a shape is dynamic. */
  method GetOutputSize(tasks: seq<Task>, order: seq<Name>, dynamic: bool) returns (size: nat)
    ensures dynamic ==> size == 0
    ensures !dynamic && (order == [] || forall i :: 0 <= i < |tasks| ==> tasks[i].ppu.None?) ==> size == Prefix(Sizes(tasks, order), |order|)
    ensures !dynamic && order != [] ==>
              forall i :: 0 <= i < |tasks| && tasks[i].ppu.Some? && (forall k :: 0 <= k < i ==> tasks[k].ppu.None?) ==> size == tasks[i].ppu.value
  {
    FirstPpuMeans(tasks);
    size := 0;
    if dynamic {
      return;
    }
    for i := 0 to |order|
      invariant i > 0 ==> FirstPpu(tasks).None?
      invariant size == Prefix(Sizes(tasks, order), i)
    {
      var s, ppu := SumMatches(tasks, order[i]);
      if ppu.Some? {
        return ppu.value;
      }
      size := size + s;
    }
  }

  /** The sizes of all matches, unless a PPU task comes up. */
  method SumMatches(tasks: seq<Task>, x: Name) returns (s: nat, ppu: Option<nat>)
    ensures ppu == FirstPpu(tasks)
    ensures ppu.None? ==> s == SumAll(tasks, x)
  {
    s := 0;
    for i := 0 to |tasks|
      invariant s == SumAll(tasks[..i], x) && FirstPpu(tasks[..i]) == None
    {
      assert tasks[..i + 1][..i] == tasks[..i];
      if tasks[i].ppu.Some? {
        FirstPpuKept(tasks, i + 1);
        return s, tasks[i].ppu;
      }
      var outs := tasks[i].outputs;
      for k := 0 to |outs|
        invariant s == SumAll(tasks[..i], x) + SumIn(outs[..k], x)
      {
        assert outs[..k + 1][..k] == outs[..k];
        if outs[k].name == x {
          s := s + outs[k].size;
        }
      }
      assert outs[..|outs|] == outs;
    }
    assert tasks[..|tasks|] == tasks;
    ppu := None;
  }

  // ----- Tail offsets -----

  /** The position of a name in the output order; of its last occurrence, should there be several. */
  method IndexOf(order: seq<Name>, x: Name) returns (r: Option<nat>)
    ensures r.Some? ==> r.value < |order| && order[r.value] == x
    ensures r.Some? ==> forall i :: r.value < i < |order| ==> order[i] != x
    ensures r.None? <==> x !in order
  {
    r := None;
    for i := 0 to |order|
      invariant r.None? <==> x !in order[..i]
      invariant r.Some? ==> r.value < i && order[r.value] == x && forall k :: r.value < k < i ==> order[k] != x
    {
      if order[i] == x {
        r := Some(i);
      }
    }
    assert order[..|order|] == order;
  }

  /** No later position has the same name; in a duplicate-free order that is every position. */
  ghost predicate IsLast(order: seq<Name>, p: int) {
    0 <= p < |order| && forall i :: p < i < |order| ==> order[i] != order[p]
  }

  /** `p` is the least position of an output of the task, a repeated name standing where it stands last. */
  ghost predicate FirstPosition(task: Task, order: seq<Name>, p: nat) {
    && IsLast(order, p) && Makes(task, order[p])
    && forall i :: 0 <= i < p && IsLast(order, i) ==> !Makes(task, order[i])
  }

  /** Sizes of the first `p` outputs, as found among the tail tasks. */
  function TailPrefix(tasks: seq<Task>, order: seq<Name>, p: nat): nat
    requires p <= |order|
  {
    if p == 0 then 0 else TailPrefix(tasks, order, p - 1) + TailSum(tasks, order[p - 1])
  }

  lemma {:induction false} TailPrefixIsPrefix(tasks: seq<Task>, order: seq<Name>, p: nat)
    requires p <= |order| && WellOrdered(tasks, order)
    ensures TailPrefix(tasks, order, p) == Prefix(Sizes(tasks, order), p)
  {
    if p > 0 {
      TailPrefixIsPrefix(tasks, order, p - 1);
      SearchesAgree(tasks, order[p - 1]);
      assert OneTailMakes(tasks, order[p - 1]);
    }
  }

  method MinPosition(task: Task, order: seq<Name>) returns (r: Option<nat>)
    ensures r.None? <==> forall i :: 0 <= i < |order| ==> !Makes(task, order[i])
    ensures r.Some? ==> FirstPosition(task, order, r.value)
  {
    r := None;
    ghost var outs := task.outputs;
    for k := 0 to |task.outputs|
      invariant r.None? ==> forall j :: 0 <= j < k ==> outs[j].name !in order
      invariant r.Some? ==> IsLast(order, r.value) && Makes(task, order[r.value])
      invariant r.Some? ==> forall j, i :: 0 <= j < k && 0 <= i < r.value && IsLast(order, i) ==> order[i] != outs[j].name
    {
      var p := IndexOf(order, task.outputs[k].name);
      if p.Some? {
        assert Makes(task, order[p.value]) && IsLast(order, p.value);
        if r.None? || p.value < r.value {
          r := p;
        }
      }
    }
  }

  /** Sum of the sizes before the first output of the task, found among the tail tasks. */
  method TailOffset(tasks: seq<Task>, t: nat, order: seq<Name>) returns (r: Option<nat>)
    requires t < |tasks|
    ensures r.None? <==> forall i :: 0 <= i < |order| ==> !Makes(tasks[t], order[i])
    ensures r.Some? ==> exists p: nat :: p <= |order| && FirstPosition(tasks[t], order, p) && r.value == TailPrefix(tasks, order, p)
    ensures r.Some? && WellOrdered(tasks, order) ==>
              LeastOffset(tasks, order, tasks[t], r.value)
  {
    var p := MinPosition(tasks[t], order);
    if p.None? {
      return None;
    }
    var offset := 0;
    for i := 0 to p.value
      invariant offset == TailPrefix(tasks, order, i)
    {
      var s := SumTails(tasks, order[i]);
      offset := offset + s;
    }
    if WellOrdered(tasks, order) {
      TailPrefixIsPrefix(tasks, order, p.value);
      LeastFromPosition(tasks, order, tasks[t], p.value);
    }
    r := Some(offset);
  }

  /** `v` is the least offset of an output of the task. */
  ghost predicate LeastOffset(tasks: seq<Task>, order: seq<Name>, task: Task, v: nat) {
    && (exists i :: 0 <= i < |order| && Makes(task, order[i]) && v == Prefix(Sizes(tasks, order), i))
    && (forall i :: 0 <= i < |order| && Makes(task, order[i]) ==> v <= Prefix(Sizes(tasks, order), i))
  }

  lemma LeastFromPosition(tasks: seq<Task>, order: seq<Name>, task: Task, p: nat)
    requires FirstPosition(task, order, p) && Distinct(order)
    ensures LeastOffset(tasks, order, task, Prefix(Sizes(tasks, order), p))
  {
    forall i | 0 <= i < |order| && Makes(task, order[i])
      ensures Prefix(Sizes(tasks, order), p) <= Prefix(Sizes(tasks, order), i)
    {
      assert IsLast(order, i);
      PrefixMonotone(Sizes(tasks, order), p, i);
    }
  }

  method SumTails(tasks: seq<Task>, x: Name) returns (s: nat)
    ensures s == TailSum(tasks, x)
  {
    s := 0;
    for i := 0 to |tasks|
      invariant s == TailSum(tasks[..i], x)
    {
      assert tasks[..i + 1][..i] == tasks[..i];
      if tasks[i].tail {
        var f := FirstOutput(tasks[i].outputs, x);
        if f.Some? {
          s := s + f.value;
        }
      }
    }
    assert tasks[..|tasks|] == tasks;
  }

  method FirstOutput(outs: seq<Tensor>, x: Name) returns (r: Option<nat>)
    ensures r == FirstIn(outs, x)
  {
    for k := 0 to |outs|
      invariant FirstIn(outs[..k], x) == None
    {
      assert outs[..k + 1][..k] == outs[..k];
      if outs[k].name == x {
        FirstKept(outs, k + 1, x);
        return Some(outs[k].size);
      }
    }
    assert outs[..|outs|] == outs;
    r := None;
  }

  // ----- All computations together -----

  /** `v` is the least of the offsets of the outputs of a task. */
  ghost predicate LeastOfOffsets(order: seq<Name>, offsets: map<Name, nat>, task: Task, v: nat) {
    && (exists i :: 0 <= i < |order| && Makes(task, order[i]) && order[i] in offsets && v == offsets[order[i]])
    && (forall i :: 0 <= i < |order| && Makes(task, order[i]) && order[i] in offsets ==> v <= offsets[order[i]])
  }

  lemma LeastCached(tasks: seq<Task>, order: seq<Name>, offsets: map<Name, nat>, task: Task, v: nat)
    requires IsLayout(tasks, order, offsets) && LeastOffset(tasks, order, task, v)
    ensures LeastOfOffsets(order, offsets, task, v)
  {
    var i :| 0 <= i < |order| && Makes(task, order[i]) && v == Prefix(Sizes(tasks, order), i);
    assert order[i] in offsets && offsets[order[i]] == v;
  }

  /** The layout of a static model without PPU: the cached offsets are those of `GetOutputs`, the
      tail offset of every task is the least cached offset of its outputs, and the output size
      is where the last output ends. */
  method LayOut(tasks: seq<Task>, order: seq<Name>)
    returns (cached: map<Name, nat>, offsets: map<Name, nat>, tails: seq<Option<nat>>, size: nat)
    requires WellOrdered(tasks, order) && FirstPpu(tasks).None?
    ensures cached == offsets && IsLayout(tasks, order, cached)
    ensures |tails| == |tasks| && forall t :: 0 <= t < |tasks| ==> TailIsLeast(tasks, order, cached, t, tails[t])
    ensures size == Prefix(Sizes(tasks, order), |order|)
  {
    var reg := BuildRegistry(tasks);
    cached := CalculateTensorOffsets(tasks, reg, order);
    offsets := GetOutputsOffsets(tasks, order);
    LayoutUnique(tasks, order, cached, offsets);
    FirstPpuMeans(tasks);
    size := GetOutputSize(tasks, order, false);
    tails := TailOffsets(tasks, order, cached);
  }

  method TailOffsets(tasks: seq<Task>, order: seq<Name>, ghost cached: map<Name, nat>) returns (tails: seq<Option<nat>>)
    requires WellOrdered(tasks, order) && IsLayout(tasks, order, cached)
    ensures |tails| == |tasks| && forall t :: 0 <= t < |tasks| ==> TailIsLeast(tasks, order, cached, t, tails[t])
  {
    tails := [];
    for t := 0 to |tasks|
      invariant |tails| == t && forall k :: 0 <= k < t ==> TailIsLeast(tasks, order, cached, k, tails[k])
    {
      var tail := LeastTail(tasks, order, t, cached);
      tails := tails + [tail];
    }
  }

  method LeastTail(tasks: seq<Task>, order: seq<Name>, t: nat, ghost cached: map<Name, nat>) returns (tail: Option<nat>)
    requires WellOrdered(tasks, order) && IsLayout(tasks, order, cached) && t < |tasks|
    ensures TailIsLeast(tasks, order, cached, t, tail)
  {
    tail := TailOffset(tasks, t, order);
    if tail.Some? {
      LeastCached(tasks, order, cached, tasks[t], tail.value);
    }
  }

  /** The tail offset of task `t`: none if it makes no output, else the least offset of its outputs. */
  ghost predicate TailIsLeast(tasks: seq<Task>, order: seq<Name>, cached: map<Name, nat>, t: int, tail: Option<nat>) {
    && 0 <= t < |tasks|
    && (tail.None? <==> forall i :: 0 <= i < |order| ==> !Makes(tasks[t], order[i]))
    && (tail.Some? ==> LeastOfOffsets(order, cached, tasks[t], tail.value))
  }

  // ----- The user's buffer -----

  /** Where the bytes of a finished output are: elsewhere, or already at their place in the
      user's buffer because a tail task wrote them there. */
  datatype Source = Elsewhere(bytes: seq<Byte>) | InPlace

  function Find(tensors: map<Name, Source>, x: Name): Option<Source> {
    if x in tensors then Some(tensors[x]) else None
  }

  /** The outputs that were not made, in order. */
  function Missing(tensors: map<Name, Source>, order: seq<Name>): (r: seq<Name>)
    ensures forall x :: x in r <==> x in order && x !in tensors
  {
    if order == [] then []
    else
      var pre, last := order[..|order| - 1], order[|order| - 1];
      assert order == pre + [last];
      if last in tensors then Missing(tensors, pre) else Missing(tensors, pre) + [last]
  }

  lemma MissingStep(tensors: map<Name, Source>, order: seq<Name>, i: nat)
    requires i < |order|
    ensures Missing(tensors, order[..i + 1]) == Missing(tensors, order[..i]) + if order[i] in tensors then [] else [order[i]]
  {
    assert order[..i + 1][..i] == order[..i];
  }

  /** The finished outputs, in order. */
  function Found(tensors: map<Name, Source>, order: seq<Name>): seq<Option<Source>> {
    seq(|order|, i requires 0 <= i < |order| => Find(tensors, order[i]))
  }

  predicate IsElsewhere(src: Option<Source>) {
    src.Some? && src.value.Elsewhere?
  }

  /** Every output found has the size its task declares. */
  ghost predicate SizesMatch(sizes: seq<nat>, srcs: seq<Option<Source>>) {
    && |srcs| == |sizes|
    && forall i :: 0 <= i < |srcs| && IsElsewhere(srcs[i]) ==> |srcs[i].value.bytes| == sizes[i]
  }

  /** The bytes of the `i`-th output; a missing one keeps what the buffer held. */
  ghost function Content(before: seq<Byte>, sizes: seq<nat>, srcs: seq<Option<Source>>, i: nat): (r: seq<Byte>)
    requires i < |sizes| && SizesMatch(sizes, srcs) && Prefix(sizes, |sizes|) <= |before|
    ensures |r| == sizes[i]
  {
    PrefixMonotone(sizes, i + 1, |sizes|);
    if IsElsewhere(srcs[i]) then srcs[i].value.bytes else before[Prefix(sizes, i)..Prefix(sizes, i + 1)]
  }

  /** The first `n` outputs one after the other. */
  ghost function Concat(before: seq<Byte>, sizes: seq<nat>, srcs: seq<Option<Source>>, n: nat): (r: seq<Byte>)
    requires n <= |sizes| && SizesMatch(sizes, srcs) && Prefix(sizes, |sizes|) <= |before|
    ensures |r| == Prefix(sizes, n)
  {
    if n == 0 then [] else Concat(before, sizes, srcs, n - 1) + Content(before, sizes, srcs, n - 1)
  }

  /** Put one output at `at` unless it is there already. */
  method StoreOutput(user: array<Byte>, at: nat, src: Source)
    requires src.Elsewhere? ==> at + |src.bytes| <= user.Length
    modifies user
    ensures user[..] == if src.Elsewhere? then old(user[..at]) + src.bytes + old(user[at + |src.bytes|..]) else old(user[..])
  {
    if src.Elsewhere? {
      forall k | 0 <= k < |src.bytes| {
        user[at + k] := src.bytes[k];
      }
    }
  }

  /** The first `n` outputs are in place, the rest of the buffer is as before. */
  ghost predicate Filled(before: seq<Byte>, mem: seq<Byte>, sizes: seq<nat>, srcs: seq<Option<Source>>, n: nat) {
    && n <= |sizes| && SizesMatch(sizes, srcs) && Prefix(sizes, |sizes|) <= |before| && Prefix(sizes, n) <= |before|
    && mem == Concat(before, sizes, srcs, n) + before[Prefix(sizes, n)..]
  }

  method PlaceOutput(user: array<Byte>, at: nat, src: Option<Source>, ghost before: seq<Byte>, ghost sizes: seq<nat>, ghost srcs: seq<Option<Source>>, ghost i: nat)
    requires i < |sizes| && Filled(before, user[..], sizes, srcs, i)
    requires src == srcs[i] && (src.Some? ==> at == Prefix(sizes, i))
    modifies user
    ensures Filled(before, user[..], sizes, srcs, i + 1)
  {
    PrefixMonotone(sizes, i + 1, |sizes|);
    ghost var mem, a, b := user[..], Prefix(sizes, i), Prefix(sizes, i + 1);
    ghost var pre, c := Concat(before, sizes, srcs, i), Content(before, sizes, srcs, i);
    assert |mem| == |before| && |pre| == a && |c| == b - a;
    if src.Some? {
      StoreOutput(user, at, src.value);
    }
    Splice(pre, c, before, a, b, mem, user[..]);
    assert Concat(before, sizes, srcs, i + 1) == pre + c;
  }

  /** Copy each output to its offset.  The buffer is then the outputs one after the other, and
      unchanged after them; the names of outputs that were not made are returned. */
  method SetReturnOutputs(user: array<Byte>, tasks: seq<Task>, order: seq<Name>, tensors: map<Name, Source>, offsets: map<Name, nat>)
    returns (missing: seq<Name>)
    requires IsLayout(tasks, order, offsets) && SizesMatch(Sizes(tasks, order), Found(tensors, order))
    requires Prefix(Sizes(tasks, order), |order|) <= user.Length
    modifies user
    ensures missing == Missing(tensors, order)
    ensures Filled(old(user[..]), user[..], Sizes(tasks, order), Found(tensors, order), |order|)
  {
    missing := CopyOutputs(user, order, tensors, offsets, Sizes(tasks, order), Found(tensors, order));
  }

  method CopyOutputs(user: array<Byte>, order: seq<Name>, tensors: map<Name, Source>, offsets: map<Name, nat>, ghost sizes: seq<nat>, ghost srcs: seq<Option<Source>>)
    returns (missing: seq<Name>)
    requires |order| == |sizes| && SizesMatch(sizes, srcs) && Prefix(sizes, |sizes|) <= user.Length
    requires forall i :: 0 <= i < |order| ==> order[i] in offsets && offsets[order[i]] == Prefix(sizes, i)
    requires forall i :: 0 <= i < |order| ==> srcs[i] == Find(tensors, order[i])
    modifies user
    ensures missing == Missing(tensors, order)
    ensures Filled(old(user[..]), user[..], sizes, srcs, |order|)
  {
    missing := [];
    for i := 0 to |order|
      invariant missing == Missing(tensors, order[..i])
      invariant Filled(old(user[..]), user[..], sizes, srcs, i)
    {
      MissingStep(tensors, order, i);
      if order[i] !in tensors {
        missing := missing + [order[i]];
      }
      PlaceOutput(user, offsets[order[i]], Find(tensors, order[i]), old(user[..]), sizes, srcs, i);
    }
    assert order[..|order|] == order;
  }

  lemma Splice(pre: seq<Byte>, c: seq<Byte>, before: seq<Byte>, a: nat, b: nat, mem: seq<Byte>, mem': seq<Byte>)
    requires |pre| == a <= b <= |before| && |c| == b - a && mem == pre + before[a..]
    requires mem' == mem[..a] + c + mem[b..] || (mem' == mem && c == before[a..b])
    ensures mem' == (pre + c) + before[b..]
  {
    assert before[a..] == before[a..b] + before[b..];
    assert mem[..a] == pre && mem[b..] == before[b..];
  }

  // ----- Without a user's buffer -----

  /** The bytes of the outputs found, in order. */
  function Copies(tensors: map<Name, Source>, order: seq<Name>): seq<seq<Byte>> {
    if order == [] then []
    else
      var pre, src := Copies(tensors, order[..|order| - 1]), Find(tensors, order[|order| - 1]);
      if IsElsewhere(src) then pre + [src.value.bytes] else pre
  }

  /** Copy each output to memory of its own. */
  method CopyReturnOutputs(order: seq<Name>, tensors: map<Name, Source>) returns (copies: seq<seq<Byte>>, missing: seq<Name>)
    requires forall x :: x in tensors ==> tensors[x].Elsewhere?
    ensures copies == Copies(tensors, order) && missing == Missing(tensors, order)
    ensures missing == [] ==> |copies| == |order|
  {
    copies, missing := [], [];
    for i := 0 to |order|
      invariant copies == Copies(tensors, order[..i]) && missing == Missing(tensors, order[..i])
    {
      MissingStep(tensors, order, i);
      CopiesStep(tensors, order, i);
      if order[i] in tensors {
        copies := copies + [tensors[order[i]].bytes];
      } else {
        missing := missing + [order[i]];
      }
    }
    assert order[..|order|] == order;
    CopiesCount(tensors, order);
  }

  lemma {:induction false} CopiesCount(tensors: map<Name, Source>, order: seq<Name>)
    requires forall x :: x in tensors ==> tensors[x].Elsewhere?
    ensures |Copies(tensors, order)| + |Missing(tensors, order)| == |order|
  {
    if order != [] {
      CopiesCount(tensors, order[..|order| - 1]);
    }
  }

  lemma CopiesStep(tensors: map<Name, Source>, order: seq<Name>, i: nat)
    requires i < |order|
    ensures var src := Find(tensors, order[i]);
            Copies(tensors, order[..i + 1]) == Copies(tensors, order[..i]) + if IsElsewhere(src) then [src.value.bytes] else []
  {
    assert order[..i + 1][..i] == order[..i];
  }

  function Flatten(xs: seq<seq<Byte>>): seq<Byte> {
    if xs == [] then [] else Flatten(xs[..|xs| - 1]) + xs[|xs| - 1]
  }

  /** With and without a user's buffer the same bytes are returned. */
  lemma {:induction false} SameBytesEitherWay(before: seq<Byte>, sizes: seq<nat>, order: seq<Name>, tensors: map<Name, Source>, n: nat)
    requires |sizes| == |order| && SizesMatch(sizes, Found(tensors, order)) && Prefix(sizes, |sizes|) <= |before| && n <= |order|
    requires forall x :: x in order ==> x in tensors && tensors[x].Elsewhere?
    ensures Concat(before, sizes, Found(tensors, order), n) == Flatten(Copies(tensors, order[..n]))
  {
    if n > 0 {
      SameBytesEitherWay(before, sizes, order, tensors, n - 1);
      assert order[..n][..n - 1] == order[..n - 1] && order[..n][n - 1] == order[n - 1];
      assert order[n - 1] in order;
      var pre, bytes := Copies(tensors, order[..n - 1]), tensors[order[n - 1]].bytes;
      assert Copies(tensors, order[..n]) == pre + [bytes];
      FlattenSnoc(pre, bytes);
    }
  }

  lemma FlattenSnoc(xs: seq<seq<Byte>>, x: seq<Byte>)
    ensures Flatten(xs + [x]) == Flatten(xs) + x
  {
    assert (xs + [x])[..|xs|] == xs;
  }
}
