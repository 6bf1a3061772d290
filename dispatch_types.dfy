/** Values shared by the dispatcher model: the machine integers of the
    entry point, the per-invocation contract instance, the declared actions
    and the events an invocation leaves behind. */
module Types {

  newtype uint64 = x: int | 0 <= x < 0x1_0000_0000_0000_0000
  newtype int64 = x: int | -0x8000_0000_0000_0000 <= x < 0x8000_0000_0000_0000
  newtype byte = x: int | 0 <= x < 0x100

  datatype Option<+T> = None | Some(value: T)

  /** How an invocation ended: it ran to its `return`, or the decoder
      rejected the payload and the guest aborted. */
  datatype Outcome<+R> = Completed(value: R) | Aborted

  /** Which `apply` the contract was built with: `WASM_DISPATCH` (only
      when `code == receiver`) or `WASM_DISPATCH_ANY` (unconditionally). */
  datatype Mode = Standard | Any

  /** The contract instance `T inst(self, code, ds)`: the executing contract
      and the account whose code is running. */
  datatype Context = Context(self: uint64, code: uint64)

  /** The typed argument list of one handler is decoded from the payload by
      the datastream extraction for that handler's parameter types; the
      decoder either yields the argument tuple or fails. */
  type Decoder<V> = seq<byte> -> Option<seq<V>>

  /** One declared member of the contract: its name, the selector
      `wasm::name(name).value` the switch matches, and the decoder for its
      parameter list. Its handler returns nothing. */
  datatype Action<V> = Action(name: string, selector: uint64, decode: Decoder<V>)

  /** A member whose handler returns an `int64_t`. */
  datatype ReturningAction<!V> =
    ReturningAction(name: string, decode: Decoder<V>, handler: (Context, seq<V>) -> int64)

  /** Where the payload was copied before decoding. */
  datatype BufferKind = NoBuffer | Stack | Heap

  /** The dispatcher's effects on the buffer and on the contract instance,
      in the order they happen. */
  datatype Event<V> =
    | Alloc(kind: BufferKind, size: nat)      // alloca or malloc of the payload buffer
    | ReadPayload(size: nat)                  // read_action_data into the buffer
    | Decoded(args: seq<V>)                   // ds >> args succeeded
    | Abort                                   // ds >> args rejected the payload
    | Construct(ctx: Context)                 // T inst(self, code, ds)
    | PreAction(ctx: Context)                 // inst.pre_action()
    | PostAction(ctx: Context)                // inst.post_action()
    | Invoke(handler: string, ctx: Context, args: seq<V>)  // the member function applied to args
    | Free(size: nat)                         // free(buffer)
    | Destroy(ctx: Context)                   // ~T() of inst when the execute function returns
}
