# Action dispatcher of the wasm contract library

This project models the action dispatcher of the wasm smart-contract library
(`libraries/wasmlib/contracts/dispatcher.hpp`) and proves what it does.

The host calls a contract's single entry point, `apply(receiver, code, action)`.
The contract declares it with `WASM_DISPATCH` or `WASM_DISPATCH_ANY` over its
list of actions.

- The standard entry point acts only when `code == receiver`. The "any"
  variant skips that check.
- Both then `switch` on the 64-bit action selector, with one `case` per
  declared member. Each case calls `execute_action` for that member's
  handler and `break`s. A selector that matches no case does nothing.
- `execute_action` copies the payload into a buffer:
  - an empty payload gets no buffer;
  - up to 512 bytes go into an `alloca` buffer;
  - larger payloads go into a `malloc` buffer.

  It then decodes the argument tuple and builds the contract instance from
  `(self, code, ds)`. It calls `pre_action`, then `post_action`, and only then
  applies the handler. It frees a heap buffer and returns `true`, and the
  instance is destroyed as the function returns.
- `execute_action_with_return` takes the same buffer and decoding steps but
  calls no hooks. Its result variable starts at `-1` and is overwritten by the
  handler's `int64_t` result.

Modules:

- `Types` (`dispatch_types.dfy`): machine integers, the contract instance
  `Context(self, code)`, declared actions with their abstract decoders, and
  the events an invocation can produce.
- `DispatchSpec` (`dispatch_spec.dfy`): specification functions.
  - `ExecuteTrace` and `ExecuteWithReturnTrace` give the exact event sequence
    of one invocation.
  - `Lookup` and `Dispatched` select the member that `apply` runs.
  - `ApplyTrace` gives everything `apply` does.
  - The lemmas state ordering, multiplicity, the gate, the switch and the
    buffer policy.
- `Dispatcher` (`dispatcher.dfy`): class `Guest`. It keeps the event log and
  the number of heap buffers not yet freed. Its methods `AcquireBuffer`,
  `ReleaseBuffer`, `ExecuteAction`, `ExecuteActionWithReturn` and `Apply` run
  the source's steps one at a time. Each is proved to append exactly the
  specified trace.
- `HelloContract` (`hello.dfy`): the `hello` example contract's action set
  (`hi`, `check`, `transfer`) as a dispatch table.

The model follows the code where it departs from what a reader of the hook
names or of the `-1` initial value might expect:

- A "post" hook would be expected to run after the handler. In the code,
  `post_action` runs before the handler (lines 39, 43 and 45).
  `ExecuteActionOrder` states this order.
- One might expect the heap buffer to be released on every path. On a decode
  failure the code has no release, so the model returns `Aborted` with the
  buffer still counted in `heapInUse`.
- One might expect `execute_action_with_return` to return `-1` when the
  payload is empty and the handler takes arguments. In the code, the handler
  is applied whenever decoding does not abort, so `-1` only stands before the
  handler runs.

## Model

| member | source | states |
|---|---|---|
| `DispatchSpec.BufferFor` | libraries/wasmlib/contracts/dispatcher.hpp:27-32 | no buffer exactly when the size is 0; a heap buffer exactly when the size exceeds 512; a stack buffer otherwise |
| `DispatchSpec.Lookup` | libraries/wasmlib/contracts/dispatcher.hpp:98-101 | the switch selects a member whose selector equals the action, the first such; it selects none exactly when no declared selector equals the action |
| `DispatchSpec.LookupUnique` | libraries/wasmlib/contracts/dispatcher.hpp:127-129 | with pairwise-distinct case labels, the switch selects exactly the member whose selector equals the action |
| `DispatchSpec.Dispatched` | libraries/wasmlib/contracts/dispatcher.hpp:125-143 | a member is selected only if its selector equals the action and, in standard mode, `code == receiver`; nothing is selected exactly when the standard gate is closed or the action is undeclared |
| `DispatchSpec.StandardIgnoresOtherCode` | libraries/wasmlib/contracts/dispatcher.hpp:126-131 | standard mode with `code != receiver` does nothing at all: no read, no allocation, no hook, no handler |
| `DispatchSpec.UnknownActionIgnored` | libraries/wasmlib/contracts/dispatcher.hpp:127-129 | an action matching no declared selector leaves no trace, in either mode |
| `DispatchSpec.AnyIgnoresCode` | libraries/wasmlib/contracts/dispatcher.hpp:135-143 | "any" mode selects the same member whatever `code` is, and selects one exactly when the action is declared |
| `DispatchSpec.DeclaredActionRunsItsHandler` | libraries/wasmlib/contracts/dispatcher.hpp:98-131 | with the gate open and a well-formed table, a declared action runs its own handler exactly once, after both hooks, and no other member's handler; a rejected payload runs no instance, hook or handler |
| `DispatchSpec.ApplyBindsContext` | libraries/wasmlib/contracts/dispatcher.hpp:98-101 | every construction, hook, handler and destruction event of `apply` carries `self == receiver` and the caller's `code` |
| `DispatchSpec.ExecuteActionOnce` | libraries/wasmlib/contracts/dispatcher.hpp:34-50 | after a successful decode: decode, construction, `pre_action`, `post_action`, the handler call and the destruction of the instance each happen exactly once, on the instance `(self, code)` |
| `DispatchSpec.ExecuteActionOrder` | libraries/wasmlib/contracts/dispatcher.hpp:34-50 | decode precedes construction, which precedes `pre_action`, which precedes `post_action`, which precedes the handler call; no other handler is called; a heap buffer is freed after the handler; the instance is destroyed last, after the handler and the free |
| `DispatchSpec.ExecuteActionAbort` | libraries/wasmlib/contracts/dispatcher.hpp:34-38 | a rejected payload ends the invocation with an abort: no instance, no hook, no handler, no destruction, no free |
| `DispatchSpec.ExecuteActionBuffer` | libraries/wasmlib/contracts/dispatcher.hpp:24-48 | nothing is allocated or read for size 0; a stack buffer up to 512 bytes and a heap buffer above, each followed by the read; a completed call frees exactly the heap buffers it allocated; a stack buffer is never freed |
| `DispatchSpec.ExecuteWithReturnNoHooks` | libraries/wasmlib/contracts/dispatcher.hpp:78-93 | the returning variant never runs a hook; it constructs the instance, calls the handler and destroys the instance, each exactly once and in that order; a completed call frees every heap buffer it allocated; a rejected payload runs nothing and frees nothing |
| `DispatchSpec.ExecuteWithReturnBuffer` | libraries/wasmlib/contracts/dispatcher.hpp:66-91 | the same buffer policy as `execute_action`: nothing allocated or read for size 0; a stack buffer up to 512 bytes and a heap buffer above, each followed by the read; a completed call frees exactly the heap buffers it allocated; a stack buffer is never freed |
| `Dispatcher.Guest.AcquireBuffer` | libraries/wasmlib/contracts/dispatcher.hpp:24-32 | the datastream reads exactly the payload; the log grows by the allocation and read events of the buffer policy; one more heap buffer is live exactly when the size exceeds 512 |
| `Dispatcher.Guest.ReleaseBuffer` | libraries/wasmlib/contracts/dispatcher.hpp:46-48 | exactly a heap buffer is freed, which lowers the live heap count by one |
| `Dispatcher.Guest.ExecuteAction` | libraries/wasmlib/contracts/dispatcher.hpp:22-50 | appends exactly `ExecuteTrace`, including the destruction of the instance on return; returns `true` on every completing path and aborts exactly when decoding fails; a completed call leaves the live heap count unchanged |
| `Dispatcher.Guest.ExecuteActionWithReturn` | libraries/wasmlib/contracts/dispatcher.hpp:64-93 | appends exactly `ExecuteWithReturnTrace`, including the destruction of the instance on return; returns the handler's result on the decoded arguments and the instance `(self, code)`, or aborts exactly when decoding fails |
| `Dispatcher.Guest.Apply` | libraries/wasmlib/contracts/dispatcher.hpp:122-144 | appends exactly `ApplyTrace`: the gate, then the switch, then `execute_action` on the selected member with `(receiver, code)` |
| `HelloContract.HelloWellFormed` | examples/hello/include/hello.hpp:11-16 | distinct selectors for `hi`, `check` and `transfer` give a well-formed switch |
| `HelloContract.HelloHiRunsOnlyHi` | examples/hello/include/hello.hpp:11-16 | action `hi` with a payload decoding to one name runs `hi` once on that name and never `check` or `transfer` |
| `HelloContract.HelloNotificationIgnored` | examples/hello/include/hello.hpp:11-16 | a notification from other code to the `hello` contract leaves the guest's log and heap count unchanged |

## Left out

- The datastream and `operator>>` decoding are not part of this model. Each
  member's decoder is an abstract function that yields the argument list or
  fails, and a failure aborts the invocation. Byte-level rules, underrun
  checks, the trailing-byte policy and the encode/decode round trip belong to
  the codec, not to the dispatcher.
- The `wasm::name` string-to-`uint64` encoding is not part of this model.
  Selectors are given values. A well-formed table has pairwise-distinct
  selectors and names, which the C++ compiler enforces by rejecting duplicate
  case labels.
- The host intrinsics `action_data_size` and `read_action_data` are foreign
  calls into the VM. The payload is an input byte sequence, and its length is
  the size.
- Memory behaviour of `malloc`, `alloca` and `free` is left out. The model
  records only the buffer kind, its size, the read and the release. The
  source does not check `malloc` for failure, so allocation failure is not
  modelled either.
- The bodies of the handlers, of `pre_action`/`post_action` and of the
  contract's constructor and destructor belong to the contract class, which
  is not part of this model. They appear only as events
  on the instance.
- The datastream `ds` that the instance also receives is not modelled.
  `Context` holds only `self` and `code`.
- `Dispatcher.Guest.ExecuteActionWithReturn`: its `-1` initial value is
  overwritten on every completing path, because `tuple_apply` applies the
  lambda exactly once. An abort returns nothing. So no contract can observe
  the sentinel. The model keeps the local initialised to `-1` but states only
  the returned handler result.
- What the VM does after an abort (ending the transaction, reclaiming
  memory) is outside the dispatcher. The model stops the invocation and
  reports `Aborted`.
- The Boost `fusion`, `mp11::tuple_apply` and preprocessor machinery is
  compile-time plumbing. It appears only as "apply the handler to the decoded
  arguments" and "one case per declared member".
- `examples/V4/synthetix/include/synthetix_log.hpp` is a debug-print macro,
  and `inline_transaction.hpp` is not part of this model.
