/**
 How many buffers per task fit in the memory of the smallest selected device.

 Sums of byte counts are 64-bit and the input size of a task is 32-bit, both wrapping.
 */
module MemorySizing {
  import opened Common

  const WORD: int := 0x1_0000_0000
  const LONG: int := 0x1_0000_0000_0000_0000

  /** Bytes needed with `n` buffers. */
  function Need(fixed: nat, per: nat, n: int): int {
    fixed + per * n
  }

  /** The same as the program computes it. */
  function Cost(fixed: nat, per: nat, n: int): int {
    Need(fixed, per, n) % LONG
  }

  /** What the count search returns for a memory of `npuMem` bytes: the greatest count up to
      `initial` whose computed cost fits, or none if that of one buffer does not. */
  ghost predicate Computed(npuMem: nat, fixed: nat, per: nat, initial: int, r: Option<int>) {
    && (r.None? <==> Cost(fixed, per, 1) > npuMem)
    && (r.Some? && initial >= 1 ==> 1 <= r.value <= initial && Cost(fixed, per, r.value) <= npuMem)
    && (r.Some? && initial >= 1 ==> forall n :: r.value < n <= initial ==> Cost(fixed, per, n) > npuMem)
    && (r.Some? && initial < 1 ==> r.value == initial)
  }

  method CalculateMaxBufferCount(npuMem: nat, fixed: nat, per: nat, initial: int) returns (r: Option<int>)
    ensures Computed(npuMem, fixed, per, initial, r)
  {
    var adjusted := initial;
    while adjusted > 1
      invariant initial >= 1 ==> 1 <= adjusted <= initial
      invariant initial < 1 ==> adjusted == initial
      invariant forall n :: adjusted < n <= initial ==> Cost(fixed, per, n) > npuMem
    {
      var total := Cost(fixed, per, adjusted);
      if total <= npuMem {
        break;
      }
      adjusted := adjusted - 1;
    }
    if Cost(fixed, per, 1) > npuMem {
      return None;
    }
    r := Some(adjusted);
  }

  /** What the count should be: in true sizes, the greatest count up to `initial` that fits. */
  ghost predicate TrueCount(npuMem: nat, fixed: nat, per: nat, initial: int, r: Option<int>) {
    && (r.None? <==> Need(fixed, per, 1) > npuMem)
    && (r.Some? ==> 1 <= r.value <= initial && Need(fixed, per, r.value) <= npuMem)
    && (r.Some? ==> forall n :: r.value < n <= initial ==> Need(fixed, per, n) > npuMem)
  }

  /** The computed count is the true one for every memory size if and only if the cost of the
      count asked for does not wrap around. */
  lemma CountExact(fixed: nat, per: nat, initial: int)
    requires initial >= 1
    ensures (forall npuMem: nat, r :: npuMem < LONG && Computed(npuMem, fixed, per, initial, r) ==> TrueCount(npuMem, fixed, per, initial, r))
            <==> Need(fixed, per, initial) < LONG
  {
    if Need(fixed, per, initial) < LONG {
      forall npuMem: nat, r | npuMem < LONG && Computed(npuMem, fixed, per, initial, r)
        ensures TrueCount(npuMem, fixed, per, initial, r)
      {
        CountRight(npuMem, fixed, per, initial, r);
      }
    } else {
      var npuMem := WrongCount(fixed, per, initial);
    }
  }

  lemma CountRight(npuMem: nat, fixed: nat, per: nat, initial: int, r: Option<int>)
    requires initial >= 1 && Need(fixed, per, initial) < LONG && Computed(npuMem, fixed, per, initial, r)
    ensures TrueCount(npuMem, fixed, per, initial, r)
  {
    forall n | 1 <= n <= initial
      ensures Cost(fixed, per, n) == Need(fixed, per, n)
    {
      StepCost(fixed, per, n, initial);
    }
  }

  lemma StepCost(fixed: nat, per: nat, n: int, initial: int)
    requires 0 <= n <= initial && Need(fixed, per, initial) < LONG
    ensures 0 <= Need(fixed, per, n) < LONG
  {
    MulMono(n, initial, per);
    MulMono(0, n, per);
  }

  /** A count fits if and only if it is at most the true one. */
  lemma FitsBelow(npuMem: nat, fixed: nat, per: nat, initial: int, best: int, n: int)
    requires TrueCount(npuMem, fixed, per, initial, Some(best)) && 1 <= n <= initial
    ensures Need(fixed, per, n) <= npuMem <==> n <= best
  {
    if n <= best {
      MulMono(n, best, per);
    }
  }

  /** A memory on which a wrapped cost is taken for one that fits. */
  lemma WrongCount(fixed: nat, per: nat, initial: int) returns (npuMem: nat)
    requires initial >= 1 && Need(fixed, per, initial) >= LONG
    ensures npuMem < LONG && Computed(npuMem, fixed, per, initial, Some(initial)) && !TrueCount(npuMem, fixed, per, initial, Some(initial))
  {
    var a, b := Cost(fixed, per, 1), Cost(fixed, per, initial);
    npuMem := if a < b then b else a;
    assert Need(fixed, per, initial) > npuMem;
  }

  /** Two buffers of half the address space seem to fit where only one does. */
  lemma WrapAcceptsTooMuch()
    ensures var half := 0x8000_0000_0000_0000;
            Computed(half, 0, half, 2, Some(2)) && !TrueCount(half, 0, half, 2, Some(2)) && TrueCount(half, 0, half, 2, Some(1))
  {
    var half := 0x8000_0000_0000_0000;
    assert Cost(0, half, 1) == half && Cost(0, half, 2) == 0;
  }

  // ----- From the model to the costs -----

  /** An NPU task: sizes of its parts, of its inputs and of its output memory; `extra` is the
      output memory a PPU adds. */
  datatype NpuTask = NpuTask(rmap: nat, weight: nat, ppu: nat, inputs: seq<nat>, outputMem: nat, extra: nat)

  /** `x` rounded up to a multiple of 64, in 32-bit arithmetic: the last 63 sizes wrap to zero. */
  function Align64(x: nat): (r: nat)
    ensures x <= WORD - 64 ==> LeastMultiple(r, x, 64)
    ensures WORD - 64 < x < WORD ==> r == 0
  {
    (64 * (x / 64) + if x % 64 > 0 then 64 else 0) % WORD
  }

  function Sum(xs: seq<nat>): nat {
    if xs == [] then 0 else Sum(xs[..|xs| - 1]) + xs[|xs| - 1]
  }

  /** 32-bit size of the encoded inputs. */
  function InputSize(t: NpuTask): nat {
    Sum(t.inputs) % WORD
  }

  function FixedCost(t: NpuTask): nat {
    t.rmap + t.weight + t.ppu
  }

  function PerBuffer(t: NpuTask): nat {
    Align64(InputSize(t)) + t.outputMem % WORD
  }

  /** The memory a task reports for `n` buffers. */
  function MemUsage(t: NpuTask, n: nat): nat {
    t.rmap + t.weight + Align64(InputSize(t)) * n + (t.outputMem + t.extra) % WORD * n
  }

  function Fixeds(ts: seq<NpuTask>): seq<nat> { seq(|ts|, i requires 0 <= i < |ts| => FixedCost(ts[i])) }

  function Pers(ts: seq<NpuTask>): seq<nat> { seq(|ts|, i requires 0 <= i < |ts| => PerBuffer(ts[i])) }

  function Usages(ts: seq<NpuTask>, n: nat): seq<nat> { seq(|ts|, i requires 0 <= i < |ts| => MemUsage(ts[i], n)) }

  function Ppus(ts: seq<NpuTask>): seq<nat> { seq(|ts|, i requires 0 <= i < |ts| => ts[i].ppu) }

  /** Tasks of the order that have a register map; the others are skipped. */
  function NpuTasks(order: seq<Option<NpuTask>>): seq<NpuTask> {
    if order == [] then []
    else
      var rest, last := NpuTasks(order[..|order| - 1]), order[|order| - 1];
      if last.Some? then rest + [last.value] else rest
  }

  /** Wrapping once at the end is the same as wrapping all along. */
  lemma AddWrapped(a: nat, b: nat, m: nat)
    requires m > 0
    ensures (a % m + b) % m == (a + b) % m
  {
    var q := a / m;
    assert a == q * m + a % m;
    ShiftMod(a % m + b, q, m);
  }

  lemma ShiftMod(x: nat, q: nat, m: nat)
    requires m > 0
    ensures (x + q * m) % m == x % m
  {
    var y := x + q * m;
    var d, r, e, t := y / m, y % m, x / m, x % m;
    assert y == d * m + r && x == e * m + t;
    var k := d - q - e;
    assert k * m == t - r by {
      MulSum(q + e, k, m);
      MulSum(q, e, m);
    }
    SmallMultiple(k, m, t - r);
  }

  lemma SmallMultiple(k: int, m: int, v: int)
    requires m > 0 && -m < v < m && k * m == v
    ensures v == 0
  {
    BigMultiple(k, m);
  }

  lemma BigMultiple(k: int, m: int)
    requires m > 0
    ensures k >= 1 ==> k * m >= m
    ensures k <= -1 ==> k * m <= -m
  {
    if k >= 1 {
      MulSum(1, k - 1, m);
      assert (k - 1) * m >= 0;
    } else if k <= -1 {
      MulSum(-1, k + 1, m);
      assert (k + 1) * m <= 0;
    }
  }

  /** Running 32-bit sum of the input sizes. */
  method EncodedInputSize(inputs: seq<nat>) returns (size: nat)
    ensures size == Sum(inputs) % WORD
  {
    size := 0;
    for i := 0 to |inputs|
      invariant size == Sum(inputs[..i]) % WORD
    {
      assert inputs[..i + 1][..i] == inputs[..i];
      AddWrapped(Sum(inputs[..i]), inputs[i], WORD);
      size := (size + inputs[i]) % WORD;
    }
    assert inputs[..|inputs|] == inputs;
  }

  /** The least of the memories, or the largest 64-bit number when there is none. */
  function LeastOf(mems: seq<nat>): (least: nat)
    ensures least < LONG && (least in mems || least == LONG - 1)
    ensures forall i :: 0 <= i < |mems| ==> least <= mems[i]
  {
    if mems == [] then LONG - 1
    else
      var pre, last := LeastOf(mems[..|mems| - 1]), mems[|mems| - 1];
      assert mems == mems[..|mems| - 1] + [last];
      if last < pre then last else pre
  }

  method LeastMemory(mems: seq<nat>) returns (least: nat)
    ensures least == LeastOf(mems)
  {
    least := LONG - 1;
    for i := 0 to |mems|
      invariant least == LeastOf(mems[..i])
    {
      assert mems[..i + 1][..i] == mems[..i];
      if mems[i] < least {
        least := mems[i];
      }
    }
    assert mems[..|mems|] == mems;
  }

  lemma SumSnoc(xs: seq<nat>, x: nat)
    ensures Sum(xs + [x]) == Sum(xs) + x
  {
    assert (xs + [x])[..|xs|] == xs;
  }

  lemma NpuTasksSnoc(order: seq<Option<NpuTask>>, i: nat)
    requires i < |order|
    ensures NpuTasks(order[..i + 1]) == if order[i].Some? then NpuTasks(order[..i]) + [order[i].value] else NpuTasks(order[..i])
  {
    assert order[..i + 1][..i] == order[..i];
  }

  lemma CostsSnoc(ts: seq<NpuTask>, t: NpuTask)
    ensures Sum(Fixeds(ts + [t])) == Sum(Fixeds(ts)) + FixedCost(t)
    ensures Sum(Pers(ts + [t])) == Sum(Pers(ts)) + PerBuffer(t)
  {
    assert Fixeds(ts + [t]) == Fixeds(ts) + [FixedCost(t)];
    assert Pers(ts + [t]) == Pers(ts) + [PerBuffer(t)];
    SumSnoc(Fixeds(ts), FixedCost(t));
    SumSnoc(Pers(ts), PerBuffer(t));
  }

  /** `n` buffers fit in every selected device. */
  ghost predicate FitsAll(mems: seq<nat>, fixed: nat, per: nat, n: int) {
    forall i :: 0 <= i < |mems| ==> Need(fixed, per, n) <= mems[i]
  }

  /** The count the memory allows, in terms of all devices. */
  ghost predicate Greatest(mems: seq<nat>, fixed: nat, per: nat, initial: int, best: int) {
    && 1 <= best <= initial && FitsAll(mems, fixed, per, best)
    && forall n :: best < n <= initial ==> !FitsAll(mems, fixed, per, n)
  }

  /** The right answer for a model: the greatest count at which everything fits in every
      device, or none if even one buffer does not. */
  ghost predicate RightCount(mems: seq<nat>, fixed: nat, per: nat, initial: int, r: Option<int>) {
    && (r.None? <==> !FitsAll(mems, fixed, per, 1))
    && (r.Some? ==> Greatest(mems, fixed, per, initial, r.value))
  }

  /** To fit everywhere is to fit in the least memory. */
  lemma LeastDecides(mems: seq<nat>, fixed: nat, per: nat, n: int)
    requires Need(fixed, per, n) < LONG
    ensures FitsAll(mems, fixed, per, n) <==> Need(fixed, per, n) <= LeastOf(mems)
  {
  }

  lemma TrueIsRight(mems: seq<nat>, fixed: nat, per: nat, initial: int, r: Option<int>)
    requires initial >= 1 && Need(fixed, per, initial) < LONG && TrueCount(LeastOf(mems), fixed, per, initial, r)
    ensures RightCount(mems, fixed, per, initial, r)
  {
    forall n | 1 <= n <= initial
      ensures FitsAll(mems, fixed, per, n) <==> Need(fixed, per, n) <= LeastOf(mems)
    {
      StepCost(fixed, per, n, initial);
      LeastDecides(mems, fixed, per, n);
    }
  }

  /** Wrapping the totals first makes no difference to the wrapped cost. */
  lemma WrappedTotals(fixed: nat, per: nat, n: nat)
    ensures Cost(fixed % LONG, per % LONG, n) == Cost(fixed, per, n)
  {
    var a, f, b, p := fixed / LONG, fixed % LONG, per / LONG, per % LONG;
    assert fixed == a * LONG + f && per == b * LONG + p;
    MulSum(b * LONG, p, n);
    MulSum(a, b * n, LONG);
    assert b * LONG * n == b * n * LONG;
    ShiftMod(f + p * n, a + b * n, LONG);
  }

  /** The count computed for a model from its wrapped totals. */
  ghost predicate Adjusted(mems: seq<nat>, fixed: nat, per: nat, initial: int, r: Option<int>) {
    Computed(LeastOf(mems), fixed % LONG, per % LONG, initial, r)
  }

  lemma AdjustedRight(mems: seq<nat>, fixed: nat, per: nat, initial: int, r: Option<int>)
    requires initial >= 1 && Need(fixed, per, initial) < LONG && Adjusted(mems, fixed, per, initial, r)
    ensures RightCount(mems, fixed, per, initial, r)
  {
    SmallTotals(fixed, per, initial);
    CountRight(LeastOf(mems), fixed, per, initial, r);
    TrueIsRight(mems, fixed, per, initial, r);
  }

  lemma SmallTotals(fixed: nat, per: nat, initial: int)
    requires initial >= 1 && Need(fixed, per, initial) < LONG
    ensures fixed % LONG == fixed && per % LONG == per
  {
    StepCost(fixed, per, 1, initial);
    assert fixed < LONG && per < LONG;
  }

  lemma AdjustedWrong(fixed: nat, per: nat, initial: int) returns (mems: seq<nat>)
    requires initial >= 1 && Need(fixed, per, initial) >= LONG
    ensures Adjusted(mems, fixed, per, initial, Some(initial)) && !RightCount(mems, fixed, per, initial, Some(initial))
  {
    var m := WrongCount(fixed, per, initial);
    WrappedTotals(fixed, per, 1);
    WrappedTotals(fixed, per, initial);
    mems := [m];
    assert mems[..0] == [] && LeastOf(mems) == m;
    assert mems[0] < Need(fixed, per, initial);
  }

  /** The count for a model is right on all sets of devices if and only if its total cost at
      the count asked for does not wrap around. */
  lemma AdjustExact(fixed: nat, per: nat, initial: int)
    requires initial >= 1
    ensures (forall mems, r :: Adjusted(mems, fixed, per, initial, r) ==> RightCount(mems, fixed, per, initial, r))
            <==> Need(fixed, per, initial) < LONG
  {
    if Need(fixed, per, initial) < LONG {
      forall mems, r | Adjusted(mems, fixed, per, initial, r)
        ensures RightCount(mems, fixed, per, initial, r)
      {
        AdjustedRight(mems, fixed, per, initial, r);
      }
    } else {
      var mems := AdjustedWrong(fixed, per, initial);
    }
  }

  /** The buffer count for a model, from its running 64-bit totals. */
  method AdjustBufferCount(bufferCount: int, deviceMems: seq<nat>, order: seq<Option<NpuTask>>) returns (r: Option<int>)
    ensures Adjusted(deviceMems, Sum(Fixeds(NpuTasks(order))), Sum(Pers(NpuTasks(order))), bufferCount, r)
  {
    var least := LeastMemory(deviceMems);
    var fixed, per := TotalCosts(order);
    r := CalculateMaxBufferCount(least, fixed, per, bufferCount);
  }

  /** The running 64-bit totals over the tasks. */
  method TotalCosts(order: seq<Option<NpuTask>>) returns (fixed: nat, per: nat)
    ensures Totals(NpuTasks(order), fixed, per)
  {
    fixed, per := 0, 0;
    for i := 0 to |order|
      invariant Totals(NpuTasks(order[..i]), fixed, per)
    {
      NpuTasksSnoc(order, i);
      if order[i].None? {
        continue;
      }
      var f, p := TaskCosts(order[i].value);
      TotalsStep(NpuTasks(order[..i]), order[i].value, fixed, per);
      fixed, per := Add64(fixed, f), Add64(per, p);
    }
    assert order[..|order|] == order;
  }

  function Add64(a: nat, b: nat): nat {
    (a + b) % LONG
  }

  method TaskCosts(t: NpuTask) returns (fixed: nat, per: nat)
    ensures fixed == FixedCost(t) == t.rmap + t.weight + t.ppu
    ensures per == PerBuffer(t) == Align64(Sum(t.inputs) % WORD) + t.outputMem % WORD
  {
    fixed := t.rmap + t.weight + t.ppu;
    var input := EncodedInputSize(t.inputs);
    per := Align64(input) + t.outputMem % WORD;
  }

  /** The true sums, wrapped once. */
  ghost predicate Totals(ts: seq<NpuTask>, fixed: nat, per: nat) {
    fixed == Sum(Fixeds(ts)) % LONG && per == Sum(Pers(ts)) % LONG
  }

  lemma TotalsStep(ts: seq<NpuTask>, t: NpuTask, fixed: nat, per: nat)
    requires Totals(ts, fixed, per)
    ensures Totals(ts + [t], Add64(fixed, FixedCost(t)), Add64(per, PerBuffer(t)))
  {
    CostsSnoc(ts, t);
    AddWrapped(Sum(Fixeds(ts)), FixedCost(t), LONG);
    AddWrapped(Sum(Pers(ts)), PerBuffer(t), LONG);
  }

  // ----- What the tasks then use -----

  /** Output memory of a task that its cost leaves out. */
  function Uncounted(t: NpuTask): int {
    (t.outputMem + t.extra) % WORD - t.outputMem % WORD
  }

  function Extras(ts: seq<NpuTask>): seq<int> { seq(|ts|, i requires 0 <= i < |ts| => Uncounted(ts[i])) }

  function Total(xs: seq<int>): int {
    if xs == [] then 0 else Total(xs[..|xs| - 1]) + xs[|xs| - 1]
  }

  function Extra(ts: seq<NpuTask>): int {
    Total(Extras(ts))
  }

  /** What the tasks use is their cost, plus what a PPU adds to their outputs, less the PPU
      binaries, which are counted but not used. */
  lemma UsageIsCost(ts: seq<NpuTask>, n: nat)
    ensures Sum(Usages(ts, n)) + Sum(Ppus(ts)) == Sum(Fixeds(ts)) + Sum(Pers(ts)) * n + Extra(ts) * n
  {
    forall i | 0 <= i < |ts|
      ensures Usages(ts, n)[i] + Ppus(ts)[i] == Fixeds(ts)[i] + Pers(ts)[i] * n + Extras(ts)[i] * n
    {
      OneUsage(ts[i], n);
    }
    BalancedSums(Usages(ts, n), Ppus(ts), Fixeds(ts), Pers(ts), Extras(ts), n);
  }

  /** A balance that holds for each holds for the sums. */
  lemma {:induction false} BalancedSums(us: seq<nat>, qs: seq<nat>, fs: seq<nat>, ps: seq<nat>, xs: seq<int>, n: int)
    requires |us| == |qs| == |fs| == |ps| == |xs|
    requires forall i :: 0 <= i < |us| ==> us[i] + qs[i] == fs[i] + ps[i] * n + xs[i] * n
    ensures Sum(us) + Sum(qs) == Sum(fs) + Sum(ps) * n + Total(xs) * n
  {
    var k := |us| - 1;
    if k >= 0 {
      BalancedSums(us[..k], qs[..k], fs[..k], ps[..k], xs[..k], n);
      AddBalance(Sum(us[..k]), Sum(qs[..k]), Sum(fs[..k]), Sum(ps[..k]), Total(xs[..k]), us[k], qs[k], fs[k], ps[k], xs[k], n);
    }
  }

  /** Two balances add up. */
  lemma AddBalance(u: int, q: int, f: int, p: int, x: int, u': int, q': int, f': int, p': int, x': int, n: int)
    requires u + q == f + p * n + x * n && u' + q' == f' + p' * n + x' * n
    ensures (u + u') + (q + q') == (f + f') + (p + p') * n + (x + x') * n
  {
    MulSum(p, p', n);
    MulSum(x, x', n);
  }

  lemma OneUsage(t: NpuTask, n: nat)
    ensures MemUsage(t, n) + t.ppu == FixedCost(t) + PerBuffer(t) * n + Uncounted(t) * n
  {
    MulSum(Align64(InputSize(t)), t.outputMem % WORD, n);
    MulSum(t.outputMem % WORD, Uncounted(t), n);
  }

  /** Device memories are 64-bit sizes. */
  ghost predicate Devices(mems: seq<nat>) {
    forall i :: 0 <= i < |mems| ==> mems[i] < LONG
  }

  /** The tasks with `n` buffers each stay within every device. */
  ghost predicate UsageFits(mems: seq<nat>, ts: seq<NpuTask>, n: nat) {
    forall i :: 0 <= i < |mems| ==> Sum(Usages(ts, n)) <= mems[i]
  }

  lemma GreatestUsageFits(mems: seq<nat>, ts: seq<NpuTask>, initial: int, best: int)
    requires Greatest(mems, Sum(Fixeds(ts)), Sum(Pers(ts)), initial, best) && Extra(ts) * initial <= Sum(Ppus(ts))
    ensures UsageFits(mems, ts, best)
  {
    ExtraFewer(Extra(ts), initial, best, Sum(Ppus(ts)));
    UsageBelow(ts, best);
  }

  lemma ExtraFewer(extra: int, initial: int, best: int, ppu: nat)
    requires 0 <= best <= initial && extra * initial <= ppu
    ensures extra * best <= ppu
  {
    if extra >= 0 {
      MulMono(best, initial, extra);
    } else {
      MulMono(extra, 0, best);
    }
  }

  lemma UsageBelow(ts: seq<NpuTask>, n: nat)
    requires Extra(ts) * n <= Sum(Ppus(ts))
    ensures Sum(Usages(ts, n)) <= Need(Sum(Fixeds(ts)), Sum(Pers(ts)), n)
  {
    UsageIsCost(ts, n);
  }

  /** The tasks stay within the devices at the greatest count that fits, whatever the devices,
      if and only if what PPUs add to the outputs at the count asked for is no more than the
      PPU binaries. */
  lemma UsageExact(ts: seq<NpuTask>, initial: int)
    requires initial >= 1 && Need(Sum(Fixeds(ts)), Sum(Pers(ts)), initial) < LONG
    ensures (forall mems, best :: Devices(mems) && Greatest(mems, Sum(Fixeds(ts)), Sum(Pers(ts)), initial, best) ==> UsageFits(mems, ts, best))
            <==> Extra(ts) * initial <= Sum(Ppus(ts))
  {
    var fixed, per := Sum(Fixeds(ts)), Sum(Pers(ts));
    if Extra(ts) * initial <= Sum(Ppus(ts)) {
      forall mems, best | Devices(mems) && Greatest(mems, fixed, per, initial, best)
        ensures UsageFits(mems, ts, best)
      {
        GreatestUsageFits(mems, ts, initial, best);
      }
    } else {
      var mems := UsageExceeds(ts, initial);
    }
  }

  lemma UsageExceeds(ts: seq<NpuTask>, initial: int) returns (mems: seq<nat>)
    requires initial >= 1 && Extra(ts) * initial > Sum(Ppus(ts)) && Need(Sum(Fixeds(ts)), Sum(Pers(ts)), initial) < LONG
    ensures Devices(mems) && Greatest(mems, Sum(Fixeds(ts)), Sum(Pers(ts)), initial, initial) && !UsageFits(mems, ts, initial)
  {
    var fixed, per := Sum(Fixeds(ts)), Sum(Pers(ts));
    MulMono(0, initial, per);
    mems := [fixed + per * initial];
    UsageIsCost(ts, initial);
    assert mems[0] < Sum(Usages(ts, initial));
  }

  /** Without PPU-enlarged outputs nothing is left out. */
  lemma NoExtra(ts: seq<NpuTask>)
    requires forall i :: 0 <= i < |ts| ==> ts[i].extra == 0
    ensures Extra(ts) == 0
  {
    NothingTotal(Extras(ts));
  }

  lemma {:induction false} NothingTotal(xs: seq<int>)
    requires forall i :: 0 <= i < |xs| ==> xs[i] == 0
    ensures Total(xs) == 0
  {
    if xs != [] {
      NothingTotal(xs[..|xs| - 1]);
    }
  }

  /** The count chosen for a model and its use of memory: when no total wraps and no PPU output
      is left out, all tasks together stay within every selected device. */
  method SizedModelFits(bufferCount: int, deviceMems: seq<nat>, order: seq<Option<NpuTask>>) returns (r: Option<int>)
    requires bufferCount >= 1
    ensures var ts := NpuTasks(order);
            Need(Sum(Fixeds(ts)), Sum(Pers(ts)), bufferCount) < LONG ==>
              && RightCount(deviceMems, Sum(Fixeds(ts)), Sum(Pers(ts)), bufferCount, r)
              && (r.Some? && NothingUncounted(ts, bufferCount) ==> UsageFits(deviceMems, ts, r.value) && ReportedTrue(ts, r.value))
  {
    ghost var ts := NpuTasks(order);
    r := AdjustBufferCount(bufferCount, deviceMems, order);
    if Need(Sum(Fixeds(ts)), Sum(Pers(ts)), bufferCount) < LONG {
      AdjustedRight(deviceMems, Sum(Fixeds(ts)), Sum(Pers(ts)), bufferCount, r);
      if r.Some? && NothingUncounted(ts, bufferCount) {
        CountedEnough(ts, bufferCount);
        GreatestUsageFits(deviceMems, ts, bufferCount, r.value);
        ReportedIsTrue(ts, bufferCount, r.value);
      }
    }
  }

  /** No PPU enlarges an output, or the PPU binaries make up for what is added. */
  ghost predicate NothingUncounted(ts: seq<NpuTask>, initial: int) {
    (forall i :: 0 <= i < |ts| ==> ts[i].extra == 0) || Extra(ts) * initial <= Sum(Ppus(ts))
  }

  lemma CountedEnough(ts: seq<NpuTask>, initial: int)
    requires NothingUncounted(ts, initial)
    ensures Extra(ts) * initial <= Sum(Ppus(ts))
  {
    if forall i :: 0 <= i < |ts| ==> ts[i].extra == 0 {
      NoExtra(ts);
    }
  }

  /** The 64-bit number a task reports. */
  function Reported(t: NpuTask, n: nat): nat {
    MemUsage(t, n) % LONG
  }

  ghost predicate ReportedTrue(ts: seq<NpuTask>, n: nat) {
    forall i :: 0 <= i < |ts| ==> Reported(ts[i], n) == MemUsage(ts[i], n)
  }

  /** Then the reported memory does not wrap either. */
  lemma ReportedIsTrue(ts: seq<NpuTask>, initial: int, n: nat)
    requires n <= initial && Need(Sum(Fixeds(ts)), Sum(Pers(ts)), initial) < LONG && Extra(ts) * initial <= Sum(Ppus(ts))
    ensures ReportedTrue(ts, n)
  {
    ExtraFewer(Extra(ts), initial, n, Sum(Ppus(ts)));
    UsageBelow(ts, n);
    StepCost(Sum(Fixeds(ts)), Sum(Pers(ts)), n, initial);
    SmallUsages(ts, n);
  }

  lemma SmallUsages(ts: seq<NpuTask>, n: nat)
    requires Sum(Usages(ts, n)) < LONG
    ensures ReportedTrue(ts, n)
  {
    forall i | 0 <= i < |ts|
      ensures Reported(ts[i], n) == MemUsage(ts[i], n)
    {
      PartOfSum(Usages(ts, n), i);
      SmallWrapped(MemUsage(ts[i], n));
    }
  }

  lemma SmallWrapped(x: nat)
    requires x < LONG
    ensures x % LONG == x
  {
  }

  lemma {:induction false} PartOfSum(xs: seq<nat>, i: nat)
    requires i < |xs|
    ensures xs[i] <= Sum(xs)
  {
    if i < |xs| - 1 {
      PartOfSum(xs[..|xs| - 1], i);
    }
  }

  // ----- In true sizes -----

  /** The bytes a task needs for `n` buffers, nothing rounded or wrapped. */
  function TrueBytes(t: NpuTask, n: nat): nat {
    t.rmap + t.weight + t.ppu + (Sum(t.inputs) + t.outputMem) * n
  }

  function TrueSizes(ts: seq<NpuTask>, n: nat): seq<nat> { seq(|ts|, i requires 0 <= i < |ts| => TrueBytes(ts[i], n)) }

  /** No size of a task passes 32 bits. */
  ghost predicate Moderate(ts: seq<NpuTask>) {
    forall i :: 0 <= i < |ts| ==> Sum(ts[i].inputs) <= WORD - 64 && ts[i].outputMem < WORD
  }

  /** The cost of a task is its true size, with the inputs of each buffer rounded up by less than 64. */
  lemma CostNearTrue(t: NpuTask, n: nat)
    requires Sum(t.inputs) <= WORD - 64 && t.outputMem < WORD && n >= 1
    ensures TrueBytes(t, n) <= Need(FixedCost(t), PerBuffer(t), n) < TrueBytes(t, n) + 64 * n
  {
    var size := Sum(t.inputs);
    SmallWord(size);
    SmallWord(t.outputMem);
    assert PerBuffer(t) == Align64(size) + t.outputMem;
    MulMono(size + t.outputMem, PerBuffer(t), n);
    MulMono(PerBuffer(t) + 1, size + t.outputMem + 64, n);
    MulSum(PerBuffer(t), 1, n);
    MulSum(size + t.outputMem, 64, n);
  }

  lemma SmallWord(x: nat)
    requires x < WORD
    ensures x % WORD == x
  {
  }

  function Needs(ts: seq<NpuTask>, n: nat): seq<nat> {
    seq(|ts|, i requires 0 <= i < |ts| => CostOf(ts[i], n))
  }

  function CostOf(t: NpuTask, n: nat): nat {
    MulMono(0, n, PerBuffer(t));
    FixedCost(t) + PerBuffer(t) * n
  }

  /** Likewise for all tasks together. */
  lemma CostsNearTrue(ts: seq<NpuTask>, n: nat)
    requires Moderate(ts) && n >= 1
    ensures Sum(TrueSizes(ts, n)) <= Need(Sum(Fixeds(ts)), Sum(Pers(ts)), n) <= Sum(TrueSizes(ts, n)) + 64 * n * |ts|
    ensures ts != [] ==> Need(Sum(Fixeds(ts)), Sum(Pers(ts)), n) < Sum(TrueSizes(ts, n)) + 64 * n * |ts|
  {
    forall i | 0 <= i < |ts|
      ensures TrueSizes(ts, n)[i] <= Needs(ts, n)[i] < TrueSizes(ts, n)[i] + 64 * n
    {
      CostNearTrue(ts[i], n);
    }
    NearSums(Needs(ts, n), TrueSizes(ts, n), 64 * n);
    LinearSums(Needs(ts, n), Fixeds(ts), Pers(ts), n);
  }

  lemma {:induction false} LinearSums(cs: seq<nat>, fs: seq<nat>, ps: seq<nat>, n: int)
    requires |cs| == |fs| == |ps| && forall i :: 0 <= i < |cs| ==> cs[i] == fs[i] + ps[i] * n
    ensures Sum(cs) == Sum(fs) + Sum(ps) * n
  {
    var k := |cs| - 1;
    if k >= 0 {
      LinearSums(cs[..k], fs[..k], ps[..k], n);
      MulSum(Sum(ps[..k]), ps[k], n);
    }
  }

  lemma {:induction false} NearSums(cs: seq<nat>, ts: seq<nat>, slack: nat)
    requires |cs| == |ts| && forall i :: 0 <= i < |cs| ==> ts[i] <= cs[i] < ts[i] + slack
    ensures Sum(ts) <= Sum(cs) <= Sum(ts) + slack * |ts|
    ensures ts != [] ==> Sum(cs) < Sum(ts) + slack * |ts|
  {
    var k := |cs| - 1;
    if k >= 0 {
      NearSums(cs[..k], ts[..k], slack);
      MulSum(k, 1, slack);
      assert slack * |ts| == slack * k + slack;
    }
  }

  /** What the count chosen means in true sizes: everything fits in every device, and a count that
      is refused does not fit by more than the rounding. */
  ghost predicate TrulyFits(mems: seq<nat>, ts: seq<NpuTask>, initial: int, r: Option<int>) {
    && (r.Some? ==> 1 <= r.value <= initial && AllHold(mems, Sum(TrueSizes(ts, r.value))))
    && (r.Some? && r.value < initial ==> !AllHold(mems, Sum(TrueSizes(ts, r.value + 1)) + 64 * (r.value + 1) * |ts|))
    && (r.None? ==> !AllHold(mems, Sum(TrueSizes(ts, 1)) + 64 * 1 * |ts|))
  }

  method TrueSizesFit(bufferCount: int, deviceMems: seq<nat>, order: seq<Option<NpuTask>>) returns (r: Option<int>)
    requires bufferCount >= 1
    ensures var ts := NpuTasks(order);
            Moderate(ts) && Sum(TrueSizes(ts, bufferCount)) + 64 * bufferCount * |ts| < LONG ==> TrulyFits(deviceMems, ts, bufferCount, r)
  {
    ghost var ts := NpuTasks(order);
    r := SizedModelFits(bufferCount, deviceMems, order);
    if Moderate(ts) && Sum(TrueSizes(ts, bufferCount)) + 64 * bufferCount * |ts| < LONG {
      CostsNearTrue(ts, bufferCount);
      RightFitsTruly(deviceMems, ts, bufferCount, r);
    }
  }

  lemma RightFitsTruly(mems: seq<nat>, ts: seq<NpuTask>, initial: int, r: Option<int>)
    requires initial >= 1 && Moderate(ts) && RightCount(mems, Sum(Fixeds(ts)), Sum(Pers(ts)), initial, r)
    ensures TrulyFits(mems, ts, initial, r)
  {
    if r.Some? {
      FitsMeansHolds(mems, ts, r.value);
      FitsMeansHolds(mems, ts, r.value + 1);
    } else {
      FitsMeansHolds(mems, ts, 1);
    }
  }

  lemma FitsMeansHolds(mems: seq<nat>, ts: seq<NpuTask>, n: nat)
    requires Moderate(ts) && n >= 1
    ensures FitsAll(mems, Sum(Fixeds(ts)), Sum(Pers(ts)), n) ==> AllHold(mems, Sum(TrueSizes(ts, n)))
    ensures AllHold(mems, Sum(TrueSizes(ts, n)) + 64 * n * |ts|) ==> FitsAll(mems, Sum(Fixeds(ts)), Sum(Pers(ts)), n)
  {
    CostsNearTrue(ts, n);
  }

  /** Every device holds `bytes`. */
  ghost predicate AllHold(mems: seq<nat>, bytes: int) {
    forall i :: 0 <= i < |mems| ==> bytes <= mems[i]
  }

  /** The tasks with a register map, in order: lists without one add nothing, lists of them are kept. */
  lemma {:induction false} NpuTasksAre(order: seq<Option<NpuTask>>)
    ensures forall t :: t in NpuTasks(order) <==> Some(t) in order
    ensures (forall i :: 0 <= i < |order| ==> order[i].Some?) ==>
              |NpuTasks(order)| == |order| && forall i :: 0 <= i < |order| ==> NpuTasks(order)[i] == order[i].value
  {
    if order != [] {
      var pre, last := order[..|order| - 1], order[|order| - 1];
      assert order == pre + [last];
      NpuTasksAre(pre);
    }
  }

  /** A PPU task without a binary: 128 KiB are added to its output and not counted, so one
      buffer is granted on a device that cannot hold it. */
  method PpuOutputNotCounted() returns (r: Option<int>)
    ensures r == Some(1) && !UsageFits([8256], [NpuTask(4096, 4096, 0, [], 64, 131072)], 1)
  {
    var t := NpuTask(4096, 4096, 0, [], 64, 131072);
    var order := [Some(t)];
    r := AdjustBufferCount(1, [8256], order);
    PpuTaskCosts(t);
    assert order[..0] == [] && NpuTasks(order) == [t];
    AdjustedRight([8256], 8192, 64, 1, r);
    assert [8256][0] < MemUsage(t, 1);
  }

  lemma PpuTaskCosts(t: NpuTask)
    requires t == NpuTask(4096, 4096, 0, [], 64, 131072)
    ensures Sum(Fixeds([t])) == 8192 && Sum(Pers([t])) == 64 && Sum(Usages([t], 1)) == MemUsage(t, 1) == 139328
  {
    assert InputSize(t) == 0 && Align64(0) == 0;
    assert Fixeds([t]) == [8192] && Pers([t]) == [64] && Usages([t], 1) == [139328];
    SumSnoc([], 8192);
    SumSnoc([], 64);
    SumSnoc([], 139328);
    assert [] + [8192] == [8192] && [] + [64] == [64] && [] + [139328] == [139328];
  }
}
