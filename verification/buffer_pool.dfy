/**
 Host buffer pools, the buffers of a task, and the request that holds them.
 */
module BufferPool {
  import opened Common

  /** Address of a host buffer. */
  type Ptr = nat

  /** The free list is a duplicate-free part of the buffers of the pool. */
  ghost predicate Sound(data: seq<Ptr>, free: seq<Ptr>) {
    Distinct(data) && Distinct(free) && forall i :: 0 <= i < |free| ==> free[i] in data
  }

  /** The buffer handed out next. */
  function Top(free: seq<Ptr>): Option<Ptr> {
    if free == [] then None else Some(free[|free| - 1])
  }

  /** The free list once the top is handed out. */
  function Rest(free: seq<Ptr>): seq<Ptr> {
    if free == [] then [] else free[..|free| - 1]
  }

  /** The free list once `p` is returned; returning nothing or a free buffer changes nothing. */
  function Returned(free: seq<Ptr>, p: Option<Ptr>): seq<Ptr> {
    if p.None? || p.value in free then free else free + [p.value]
  }

  /** Returning the buffer just taken restores the list, order included. */
  lemma ReturnTop(data: seq<Ptr>, free: seq<Ptr>)
    requires Sound(data, free)
    ensures Sound(data, Rest(free))
    ensures Returned(Rest(free), Top(free)) == free
  {
    if free != [] {
      assert free == Rest(free) + [free[|free| - 1]];
    }
  }

  /** What `GetBuffer` returns: nothing for an empty pool, a failure after a wait in vain. */
  datatype Got = NoBuffers | Timeout | Buffer(ptr: Ptr)

  class FixedSizeBuffer {
    const data: seq<Ptr>
    var pointers: seq<Ptr>

    ghost predicate Valid()
      reads this
    {
      Sound(data, pointers)
    }

    constructor (addresses: seq<Ptr>)
      requires Distinct(addresses)
      ensures Valid() && data == addresses && pointers == addresses
    {
      data := addresses;
      pointers := addresses;
    }

    method GetBuffer() returns (r: Got)
      requires Valid()
      modifies this
      ensures Valid()
      ensures r.NoBuffers? <==> data == []
      ensures r.Timeout? <==> data != [] && old(pointers) == []
      ensures pointers == Rest(old(pointers))
      ensures r.Buffer? ==> Top(old(pointers)) == Some(r.ptr) && r.ptr in data && r.ptr !in pointers
      ensures !r.Buffer? ==> old(pointers) == []
    {
      if data == [] {
        return NoBuffers;
      }
      if pointers == [] {
        return Timeout;
      }
      r := Buffer(pointers[|pointers| - 1]);
      pointers := pointers[..|pointers| - 1];
    }

    /** False for a pointer that is not of this pool. */
    method ReleaseBuffer(ptr: Option<Ptr>) returns (ok: bool)
      requires Valid()
      modifies this
      ensures Valid()
      ensures ok <==> ptr.None? || ptr.value in data
      ensures pointers == if ok then Returned(old(pointers), ptr) else old(pointers)
    {
      if ptr.None? {
        return true;
      }
      var exist := Scan(data, ptr.value);
      if !exist {
        return false;
      }
      var free := Scan(pointers, ptr.value);
      if free {
        return true;
      }
      pointers := pointers + [ptr.value];
      ok := true;
    }

    method HasBuffer() returns (r: bool)
      ensures r <==> Top(pointers).Some?
    {
      r := pointers != [];
    }
  }

  method Scan(s: seq<Ptr>, p: Ptr) returns (found: bool)
    ensures found <==> p in s
  {
    found := false;
    for i := 0 to |s|
      invariant found <==> p in s[..i]
    {
      if s[i] == p {
        return true;
      }
    }
    assert s[..|s|] == s;
  }

  // ----- The buffers of a task -----

  datatype BufferSet = BufferSet(encodedInput: Option<Ptr>, output: Option<Ptr>, encodedOutput: Option<Ptr>)

  /** The three free lists of a task; a CPU task has only the second. */
  datatype Lists = Lists(encodedInput: seq<Ptr>, output: seq<Ptr>, encodedOutput: seq<Ptr>)

  function Tops(l: Lists): BufferSet {
    BufferSet(Top(l.encodedInput), Top(l.output), Top(l.encodedOutput))
  }

  function Rests(l: Lists): Lists {
    Lists(Rest(l.encodedInput), Rest(l.output), Rest(l.encodedOutput))
  }

  function AllReturned(l: Lists, b: BufferSet): Lists {
    Lists(Returned(l.encodedInput, b.encodedInput), Returned(l.output, b.output), Returned(l.encodedOutput, b.encodedOutput))
  }

  ghost predicate AllSound(d: Lists, l: Lists) {
    Sound(d.encodedInput, l.encodedInput) && Sound(d.output, l.output) && Sound(d.encodedOutput, l.encodedOutput)
  }

  /** A pool that has buffers, all of them taken. */
  predicate Exhausted(d: Lists, l: Lists) {
    || (d.encodedInput != [] && l.encodedInput == [])
    || (d.output != [] && l.output == [])
    || (d.encodedOutput != [] && l.encodedOutput == [])
  }

  /** Each buffer of the set, if present, belongs to its pool. */
  predicate Belongs(d: Lists, b: BufferSet) {
    && (b.encodedInput.Some? ==> b.encodedInput.value in d.encodedInput)
    && (b.output.Some? ==> b.output.value in d.output)
    && (b.encodedOutput.Some? ==> b.encodedOutput.value in d.encodedOutput)
  }

  /** The part of a set that a task has pools for. */
  function Used(npu: bool, b: BufferSet): BufferSet {
    if npu then b else BufferSet(None, b.output, None)
  }

  predicate IsOf(data: seq<Ptr>, p: Option<Ptr>) {
    p.Some? ==> p.value in data
  }

  /** What a job knows of the output buffer its user passed: whether the request was marked as
      using it, its address, its size unless shapes are dynamic, and whether the task is a tail. */
  datatype UserOutput = UserOutput(marked: bool, buffer: Option<Ptr>, size: Option<nat>, tail: bool)

  /** The output lies in the user's buffer. */
  predicate IsUserOutput(user: UserOutput, output: Option<Ptr>) {
    || user.marked
    || (user.buffer.Some? && output.Some? && user.size.Some?
        && user.buffer.value <= output.value < user.buffer.value + user.size.value)
  }

  /** The buffers of a request without a set that go back to the pools: not the output if it is
      the user's, nor that of a tail task whose user passed a buffer. */
  function Individual(npu: bool, b: BufferSet, user: UserOutput): BufferSet {
    if IsUserOutput(user, b.output) || (user.buffer.Some? && user.tail) then Used(npu, b).(output := None) else Used(npu, b)
  }

  /** What is returned before a buffer that does not belong stops the release: the encoded
      output goes back first, then the output. */
  function ReturnedUntilForeign(d: Lists, l: Lists, b: BufferSet): Lists {
    if !IsOf(d.encodedOutput, b.encodedOutput) then l
    else
      var l1 := l.(encodedOutput := Returned(l.encodedOutput, b.encodedOutput));
      if !IsOf(d.output, b.output) then l1 else l1.(output := Returned(l.output, b.output))
  }

  /** Returning what was taken restores all lists; returning it again changes nothing. */
  lemma ReturnAllTops(d: Lists, l: Lists)
    requires AllSound(d, l)
    ensures Belongs(d, Tops(l)) && AllSound(d, Rests(l))
    ensures AllReturned(Rests(l), Tops(l)) == l
    ensures AllReturned(l, Tops(l)) == l
  {
    ReturnTop(d.encodedInput, l.encodedInput);
    ReturnTop(d.output, l.output);
    ReturnTop(d.encodedOutput, l.encodedOutput);
  }

  function PtrOf(g: Got): Option<Ptr> {
    if g.Buffer? then Some(g.ptr) else None
  }

  class Task {
    const npu: bool
    const encodedInput: FixedSizeBuffer?
    const output: FixedSizeBuffer
    const encodedOutput: FixedSizeBuffer?

    ghost predicate Shaped() {
      && (npu ==> encodedInput != null && encodedOutput != null && encodedInput != output
                  && encodedOutput != output && encodedInput != encodedOutput)
      && (!npu ==> encodedInput == null && encodedOutput == null)
    }

    /** The pools. */
    ghost function Pools(): set<FixedSizeBuffer>
      requires Shaped()
    {
      if npu then {encodedInput, output, encodedOutput} else {output}
    }

    ghost predicate Valid()
      reads if Shaped() then Pools() else {}
    {
      Shaped() && AllSound(Data(), Free())
    }

    ghost function Data(): Lists
      requires Shaped()
    {
      if npu then Lists(encodedInput.data, output.data, encodedOutput.data) else Lists([], output.data, [])
    }

    ghost function Free(): Lists
      requires Shaped()
      reads Pools()
    {
      if npu then Lists(encodedInput.pointers, output.pointers, encodedOutput.pointers) else Lists([], output.pointers, [])
    }

    /** Pools of equal size: `addresses` gives as many for each. */
    constructor (isNpu: bool, addresses: Lists)
      requires Distinct(addresses.encodedInput) && Distinct(addresses.output) && Distinct(addresses.encodedOutput)
      requires |addresses.encodedInput| == |addresses.output| == |addresses.encodedOutput|
      ensures Valid() && npu == isNpu && fresh(Pools())
      ensures Free() == Data() == if npu then addresses else Lists([], addresses.output, [])
    {
      npu := isNpu;
      output := new FixedSizeBuffer(addresses.output);
      if isNpu {
        encodedInput := new FixedSizeBuffer(addresses.encodedInput);
        encodedOutput := new FixedSizeBuffer(addresses.encodedOutput);
      } else {
        encodedInput := null;
        encodedOutput := null;
      }
    }

    /** Take one buffer of each pool, in order.  If a pool is exhausted, what was taken is
        given back and the free lists are as before. */
    method AcquireAllBuffers() returns (r: Option<BufferSet>)
      requires Valid()
      modifies Pools()
      ensures Valid()
      ensures r.None? <==> Exhausted(Data(), old(Free()))
      ensures r.None? ==> Free() == old(Free())
      ensures r.Some? ==> r.value == Tops(old(Free())) && Free() == Rests(old(Free()))
    {
      ReturnAllTops(Data(), Free());
      var b := BufferSet(None, None, None);
      if npu {
        var g := encodedInput.GetBuffer();
        if g.Timeout? {
          var _ := ReleaseAllBuffers(b);
          return None;
        }
        b := b.(encodedInput := PtrOf(g));
      }
      var g := output.GetBuffer();
      if g.Timeout? {
        var _ := ReleaseAllBuffers(b);
        return None;
      }
      b := b.(output := PtrOf(g));
      if npu {
        g := encodedOutput.GetBuffer();
        if g.Timeout? {
          var _ := ReleaseAllBuffers(b);
          return None;
        }
        b := b.(encodedOutput := PtrOf(g));
      }
      r := Some(b);
    }

    /** Give the buffers back in reverse order; false if one is not of its pool. */
    method ReleaseAllBuffers(b: BufferSet) returns (ok: bool)
      requires Valid()
      modifies Pools()
      ensures Valid()
      ensures ok <==> Belongs(Data(), Used(npu, b))
      ensures ok ==> Free() == AllReturned(old(Free()), Used(npu, b))
      ensures !ok ==> Free() == ReturnedUntilForeign(Data(), old(Free()), Used(npu, b))
      ensures !ok ==> Free().encodedInput == old(Free()).encodedInput
      ensures !ok && !IsOf(Data().encodedOutput, Used(npu, b).encodedOutput) ==> Free() == old(Free())
      ensures !ok && IsOf(Data().encodedOutput, Used(npu, b).encodedOutput) ==>
                Free().encodedOutput == Returned(old(Free()).encodedOutput, Used(npu, b).encodedOutput)
                && Free().output == if b.output.Some? && b.output.value in Data().output then Returned(old(Free()).output, b.output) else old(Free()).output
    {
      if b.encodedOutput.Some? && npu {
        ok := encodedOutput.ReleaseBuffer(b.encodedOutput);
        if !ok {
          return;
        }
      }
      if b.output.Some? {
        ok := output.ReleaseBuffer(b.output);
        if !ok {
          return;
        }
      }
      if b.encodedInput.Some? && npu {
        ok := encodedInput.ReleaseBuffer(b.encodedInput);
        if !ok {
          return;
        }
      }
      ok := true;
    }
  }

  // ----- Requests -----

  class Request {
    var task: Task?
    var bufferSet: Option<BufferSet>
    var bufferReleased: bool

    ghost predicate Valid()
      reads this, if task != null && task.Shaped() then task.Pools() else {}
    {
      task != null ==> task.Valid() && (bufferSet.Some? ==> Belongs(task.Data(), bufferSet.value))
    }

    ghost function Footprint(): set<object>
      reads this
    {
      {this} + if task != null && task.Shaped() then task.Pools() else {}
    }

    constructor (t: Task)
      requires t.Valid()
      ensures Valid() && task == t && bufferSet == None && !bufferReleased
    {
      task := t;
      bufferSet := None;
      bufferReleased := false;
    }

    /** Hold `b`; a set held before is returned first. */
    method SetBufferSet(b: BufferSet)
      requires Valid() && (task != null ==> Belongs(task.Data(), b))
      modifies Footprint()
      ensures Valid() && task == old(task) && bufferSet == Some(b) && bufferReleased == old(bufferReleased)
      ensures task != null ==>
                task.Free() == if old(bufferSet).Some? then AllReturned(old(task.Free()), old(bufferSet).value) else old(task.Free())
    {
      if bufferSet.Some? && task != null {
        var _ := task.ReleaseAllBuffers(bufferSet.value);
      }
      bufferSet := Some(b);
    }

    /** Return the buffers held, the first time only. */
    method ReleaseBuffers()
      requires Valid()
      modifies Footprint()
      ensures Valid() && task == old(task) && bufferReleased
      ensures old(bufferReleased) ==> bufferSet == old(bufferSet)
      ensures !old(bufferReleased) && task != null ==> bufferSet == None
      ensures task != null ==>
                task.Free() == if !old(bufferReleased) && old(bufferSet).Some? then AllReturned(old(task.Free()), old(bufferSet).value) else old(task.Free())
    {
      if bufferReleased {
        return;
      }
      if bufferSet.Some? && task != null {
        var _ := task.ReleaseAllBuffers(bufferSet.value);
        bufferSet := None;
      }
      bufferReleased := true;
    }

    /** Later releases of this request do nothing. */
    method MarkBufferReleased()
      modifies this`bufferReleased
      ensures bufferReleased
    {
      bufferReleased := true;
    }

    /** Return single buffers instead of a set: the output unless the user owns it, then the
        encoded ones of an NPU task. */
    method ReleaseIndividualBuffers(b: BufferSet, user: UserOutput)
      requires Valid() && task != null && Belongs(task.Data(), Used(task.npu, b))
      modifies Footprint()
      ensures Valid() && task == old(task) && bufferSet == old(bufferSet) && bufferReleased
      ensures task.Free() == AllReturned(old(task.Free()), Individual(task.npu, b, user))
      ensures task.npu ==> task.Free().encodedInput == Returned(old(task.Free()).encodedInput, b.encodedInput)
                           && task.Free().encodedOutput == Returned(old(task.Free()).encodedOutput, b.encodedOutput)
      ensures !user.marked && user.buffer.None? ==> task.Free().output == Returned(old(task.Free()).output, b.output)
      ensures user.marked || (user.buffer.Some? && user.tail) ==> task.Free().output == old(task.Free()).output
      ensures !user.marked && user.buffer.Some? && !user.tail && b.output.Some? ==>
                task.Free().output
                == if user.size.Some? && user.buffer.value <= b.output.value < user.buffer.value + user.size.value
                   then old(task.Free()).output else Returned(old(task.Free()).output, b.output)
    {
      var release := !IsUserOutput(user, b.output) && (user.buffer.None? || !user.tail);
      if release {
        var _ := task.output.ReleaseBuffer(b.output);
      }
      if task.npu {
        var _ := task.encodedInput.ReleaseBuffer(b.encodedInput);
        var _ := task.encodedOutput.ReleaseBuffer(b.encodedOutput);
      }
      MarkBufferReleased();
    }

    /** The end of a request without a set: its single buffers go back, and the reset that
        follows returns nothing a second time. */
    method EndWithoutSet(b: BufferSet, user: UserOutput)
      requires Valid() && task != null && Belongs(task.Data(), Used(task.npu, b))
      modifies Footprint()
      ensures Valid() && task == null && !bufferReleased
      ensures old(task).Valid()
      ensures old(task).Free() == AllReturned(old(task.Free()), Individual(old(task).npu, b, user))
    {
      ReleaseIndividualBuffers(b, user);
      Reset();
    }

    /** Return the buffers and forget the task. */
    method Reset()
      requires Valid()
      modifies Footprint()
      ensures Valid() && task == null && !bufferReleased
      ensures old(bufferReleased) ==> bufferSet == old(bufferSet)
      ensures !old(bufferReleased) && old(task) != null ==> bufferSet == None
      ensures old(task) != null ==>
                && old(task).Valid()
                && old(task).Free() == if !old(bufferReleased) && old(bufferSet).Some? then AllReturned(old(task.Free()), old(bufferSet).value) else old(task.Free())
    {
      ReleaseBuffers();
      task := null;
      bufferReleased := false;
    }

    /** One life of a request: dispatch, an early release that may or may not happen, and the
        reset at the end of the job.  The pools end as they began; a failed dispatch takes nothing. */
    method Life(early: bool) returns (served: bool)
      requires Valid() && task != null && bufferSet == None && !bufferReleased
      modifies Footprint()
      ensures served <==> !old(Exhausted(task.Data(), task.Free()))
      ensures old(task).Valid() && old(task).Free() == old(task.Free())
    {
      var t := task;
      ReturnAllTops(t.Data(), t.Free());
      var b := t.AcquireAllBuffers();
      if b.None? {
        return false;
      }
      SetBufferSet(b.value);
      if early {
        ReleaseBuffers();
      }
      Reset();
      served := true;
    }
  }
}
