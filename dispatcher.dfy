/** The dispatcher as the guest runs it: `apply` gates on the receiver,
    switches on the action, and `execute_action` / `execute_action_with_return`
    copy the payload into a buffer, decode it, build the contract instance and
    call the handler; the instance is destroyed when the execute function
    returns. The guest records these steps in `log` and keeps count of the
    heap buffers it has not freed. */
module Dispatcher {
  import opened Types
  import opened DispatchSpec

  class Guest<V> {
    /** The dispatcher's buffer and instance events so far, oldest first. */
    var log: seq<Event<V>>
    /** Heap buffers allocated and not yet freed. */
    var heapInUse: nat

    ghost predicate Valid()
      reads this
    {
      Frees(log) <= HeapAllocs(log) && heapInUse == HeapAllocs(log) - Frees(log)
    }

    constructor ()
      ensures Valid() && log == [] && heapInUse == 0
    {
      log := [];
      heapInUse := 0;
    }

    /** `action_data_size`, then the buffer: none for an empty payload,
        `alloca` up to `max_stack_buffer_size` bytes, `malloc` above, filled
        by `read_action_data`. Returns the bytes the datastream reads. */
    method AcquireBuffer(payload: seq<byte>) returns (data: seq<byte>)
      requires Valid()
      modifies this
      ensures Valid()
      ensures data == payload
      ensures log == old(log) + AcquireTrace(|payload|)
      ensures heapInUse == old(heapInUse) + (if MaxStackBufferSize < |payload| then 1 else 0)
    {
      var size := |payload|;
      var buffer: array?<byte> := null;
      if size > 0 {
        var kind := if MaxStackBufferSize < size then Heap else Stack;
        CountsAppend(log, [Alloc(kind, size)]);
        log := log + [Alloc(kind, size)];
        if kind == Heap {
          heapInUse := heapInUse + 1;
        }
        buffer := new byte[size](i requires 0 <= i < size => payload[i]);
        CountsAppend(log, [ReadPayload(size)]);
        log := log + [ReadPayload(size)];
      }
      data := if buffer == null then [] else buffer[..];
    }

    /** `if (max_stack_buffer_size < size) free(buffer);` */
    method ReleaseBuffer(size: nat)
      requires Valid()
      requires MaxStackBufferSize < size ==> heapInUse > 0
      modifies this
      ensures Valid()
      ensures log == old(log) + ReleaseTrace(size)
      ensures heapInUse == old(heapInUse) - (if MaxStackBufferSize < size then 1 else 0)
    {
      if MaxStackBufferSize < size {
        CountsAppend(log, [Free(size)]);
        log := log + [Free(size)];
        heapInUse := heapInUse - 1;
      }
    }

    /** Records one event that is not a buffer event. */
    method Record(e: Event<V>)
      requires Valid() && !IsBufferEvent(e)
      modifies this
      ensures Valid() && log == old(log) + [e] && heapInUse == old(heapInUse)
    {
      CountsAppend(log, [e]);
      NoBufferNoCounts([e]);
      log := log + [e];
    }

    /** `execute_action(self, code, &OP::member)`: read and decode the
        payload, build the instance, call `pre_action` and `post_action`,
        then apply the handler, free a heap buffer, destroy the instance and
        return `true`. A payload the decoder rejects aborts the invocation. */
    method ExecuteAction(self: uint64, code: uint64, act: Action<V>, payload: seq<byte>) returns (r: Outcome<bool>)
      requires Valid()
      modifies this
      ensures Valid()
      ensures log == old(log) + ExecuteTrace(self, code, act, payload)
      ensures r == if act.decode(payload).Some? then Completed(true) else Aborted
      ensures heapInUse == old(heapInUse) + (if r.Aborted? && MaxStackBufferSize < |payload| then 1 else 0)
    {
      ExecuteTraceShape(self, code, act, payload);
      var data := AcquireBuffer(payload);
      var acquired := log;
      var decoded := act.decode(data);
      if decoded.None? {
        Record(Abort);
        return Aborted;
      }
      var args := decoded.value;
      Record(Decoded(args));
      var inst := Context(self, code);
      Record(Construct(inst));
      Record(PreAction(inst));
      Record(PostAction(inst));
      Record(Invoke(act.name, inst, args));
      assert log == acquired + ActionBlock(inst, act.name, args);
      ReleaseBuffer(|payload|);
      Record(Destroy(inst));
      r := Completed(true);
    }

    /** `execute_action_with_return(self, code, &OP::member)`: the same
        buffer and decoding steps, no hooks; the result starts at -1 and is
        overwritten by the handler's result; the instance is destroyed on
        return. */
    method ExecuteActionWithReturn(self: uint64, code: uint64, act: ReturningAction<V>, payload: seq<byte>)
      returns (r: Outcome<int64>)
      requires Valid()
      modifies this
      ensures Valid()
      ensures log == old(log) + ExecuteWithReturnTrace(self, code, act, payload)
      ensures r == match act.decode(payload)
                   case None => Aborted
                   case Some(args) => Completed(act.handler(Context(self, code), args))
      ensures heapInUse == old(heapInUse) + (if r.Aborted? && MaxStackBufferSize < |payload| then 1 else 0)
    {
      var executeActionReturn: int64 := -1;
      ExecuteWithReturnShape(self, code, act, payload);
      var data := AcquireBuffer(payload);
      var acquired := log;
      var decoded := act.decode(data);
      if decoded.None? {
        Record(Abort);
        return Aborted;
      }
      var args := decoded.value;
      Record(Decoded(args));
      var inst := Context(self, code);
      Record(Construct(inst));
      executeActionReturn := act.handler(inst, args);
      Record(Invoke(act.name, inst, args));
      assert log == acquired + ReturningBlock(inst, act.name, args);
      ReleaseBuffer(|payload|);
      Record(Destroy(inst));
      r := Completed(executeActionReturn);
    }

    /** The `apply(receiver, code, action)` entry point generated by
        `WASM_DISPATCH` (mode Standard) or `WASM_DISPATCH_ANY` (mode Any)
        over the declared members `table`. */
    method Apply(mode: Mode, receiver: uint64, code: uint64, action: uint64,
                 payload: seq<byte>, table: seq<Action<V>>)
      requires Valid()
      modifies this
      ensures Valid()
      ensures log == old(log) + ApplyTrace(mode, receiver, code, action, payload, table)
    {
      if mode == Any || code == receiver {
        var member := Lookup(table, action);
        if member.Some? {
          var _ := ExecuteAction(receiver, code, table[member.value], payload);
        }
      }
    }
  }
}
