# CUDA / Direct3D 11 shared-buffer interop, modelled in Dafny

This project models the lifecycle of one D3D11 buffer shared with CUDA, as
implemented in `src/lib.rs`:

- `CudaD3D11Resource` registers the buffer with CUDA when it is constructed and
  unregisters it when it is dropped.
- `copy_from` issues a renderer-side `CopyResource` into the buffer currently
  stored in the public field `resource`.
- `CudaMappedResource` is a scope guard. It maps the resource on a stream and
  fetches the device pointer and size. If the pointer query fails, it undoes the
  map. It unmaps when it is dropped.
- `with_mapped` wraps a caller's closure around one such guard.

Every native call is invisible to the model, so each call is an `Event`
appended to a trace. The status code a call returns is a free input: success
(`cudaSuccess`, 0) or any failure code. The abstract state of the resource is
`Registered` or `Mapped(stream, devPtr, size)`, plus a `dropped` flag. In Rust,
the `&mut` borrow rules out a second guard, and a copy or drop while a guard is
alive. Here that is the precondition `Exclusive()`.

Modules:

- `Native` (native.dfy): status codes, opaque handles and pointers, the `Event`
  trace, and counting events by kind.
- `Protocol` (protocol.dfy): the interop protocol as a monitor over traces. It
  is an independent reference definition: register once; then copies and map
  attempts; each successful map is followed by the pointer query and exactly
  one unmap of the same handle on the same stream; unregister once. It also
  holds the general trace lemmas.
- `Interop` (interop.dfy): the operations of `src/lib.rs` as pure functions
  from a resource, the trace so far and the native statuses to the new
  resource, result and trace.
- `Lifecycle` (lifecycle.dfy) connects the two halves:
  - every operation, whatever the statuses, keeps a conforming trace
    conforming, and issues exactly the native calls stated;
  - a program in which every guard ends by being dropped is a sequence of
    `Op`s run by `Run`. Such programs may also reassign the public fields
    `resource` and `device_context`;
  - every trace such a program can reach registers once, has at most one
    mapping open at any point, closes every successful map with exactly one
    unmap on the same stream, and unregisters exactly once if and only if the
    resource was dropped;
  - safe Rust also lets a program leak a guard with `std::mem::forget`.
    `RunAsWritten` admits that step, and it reaches a trace that unregisters a
    mapped resource (see Findings).

## Model

| member | source | states |
|---|---|---|
| Interop.New | src/lib.rs:32-47 | The trace holds only the register call. A resource exists exactly when registration returns success. It stores the handle the runtime wrote and starts `Registered`. A failure yields the OS error, not the CUDA code. |
| Interop.CopyFrom | src/lib.rs:71-77 | Only allowed with exclusive, unmapped access. It appends one `CopyResource` from the source into the buffer currently stored in `resource`, through the context currently stored in `device_context`, and leaves the resource unchanged. |
| Interop.NewMapped | src/lib.rs:117-145 | The first call is always the map. A map failure returns that code, issues nothing else and leaves the resource unchanged. A pointer failure returns the pointer code and ends with an unmap of the same handle on the same stream. On full success the guard and the `Mapped` phase hold exactly the stream, pointer and size from the runtime. |
| Interop.MapResource | src/lib.rs:62-69 | Same resource and trace as the guard constructor. A guard is passed through unchanged. A failure's native code is wrapped in a `MapError`. |
| Interop.AsPtr | src/lib.rs:148-150 | Returns the guard's device pointer and size unchanged. |
| Interop.DropMapped | src/lib.rs:153-162 | The first call is an unmap on the stream recorded in the guard. A failure appends exactly one log entry carrying the code and is never returned. The resource is `Registered` afterwards in every case. |
| Interop.DropResource | src/lib.rs:94-101 | Only allowed from `Registered`. The first call is an unregister of the stored handle. A failure only appends a log entry. |
| Interop.WithMapped | src/lib.rs:82-91 | The resource is back to its state before the call on every path. A map or pointer failure becomes the caller's error through the `From` conversion. On success the result is the closure's result on the guard, the closure runs right after the pointer query, and the unmap follows it before return. |
| Lifecycle.NewConforms | src/lib.rs:36-46 | A successful registration starts a trace the protocol accepts, in state `Idle`. A failed one leaves a trace after which no call is allowed. |
| Lifecycle.CopyFromConforms | src/lib.rs:71-77 | A copy keeps the trace conforming with the state still `Registered`. |
| Lifecycle.NewMappedConforms | src/lib.rs:122-144 | For every combination of map, pointer and undo statuses, the trace still conforms. A failed map or failed pointer query ends `Idle` again. A success ends with exactly the guard's mapping open. |
| Lifecycle.DropMappedConforms | src/lib.rs:153-162 | Dropping a guard closes its mapping and returns the protocol to `Idle`, whatever the unmap status. |
| Lifecycle.DropResourceConforms | src/lib.rs:94-101 | Dropping the resource moves the protocol to `Retired`, whatever the unregister status. |
| Lifecycle.WithMappedConforms | src/lib.rs:82-91 | On every path `with_mapped` keeps the trace conforming. The closure runs inside the mapping, on the mapped stream. |
| Lifecycle.NewMappedCalls | src/lib.rs:122-137 | Exactly one map call. A pointer query only after a successful map. An unmap exactly when the map succeeded and the query failed. Successful maps exceed unmaps by one exactly when a guard is returned. |
| Lifecycle.DropMappedCalls | src/lib.rs:156-161 | Dropping a guard issues exactly one unmap and no map, and logs exactly when the unmap fails. |
| Lifecycle.DropResourceCalls | src/lib.rs:97-100 | Dropping the resource issues exactly one unregister and no map or unmap, and logs exactly when the unregister fails. |
| Lifecycle.WithMappedCalls | src/lib.rs:87-90 | The closure is called exactly once when mapping succeeds and never otherwise. Successful maps equal unmaps when `with_mapped` returns. |
| Lifecycle.AsPtrReportsRuntimeValues | src/lib.rs:139-150 | After a full success, `as_ptr` returns exactly the device pointer and size the runtime reported. |
| Lifecycle.ApplyPreservesValid | src/lib.rs:106-112 | Any one operation the borrow checker accepts, reassigning the public fields included, in a program that never leaks a guard keeps three things true: the guard and the `Mapped` phase agree, on handle, stream, pointer and size, and the trace conforms. |
| Lifecycle.RunPreservesValid | src/lib.rs:106-112 | Any sequence of such operations keeps the same invariant. |
| Lifecycle.ReachableTraces | src/lib.rs:94-162 | For every program and every status the runtime returns: one register call; successful maps minus unmaps is 1 while a guard is alive and 0 otherwise, and 0 or 1 at every prefix; exactly one unregister if the resource was dropped, none otherwise. |
| Lifecycle.ReachableMapsAreClosed | src/lib.rs:114-162 | With no guard alive, every successful map in a reachable trace is followed by an unmap of the same handle on the same stream. Only the pointer query and the closure come in between. |
| Lifecycle.LeakedGuardBreaksProtocol | src/lib.rs:104-118 | With a leaked guard allowed, mapping, leaking the guard and dropping the resource, all with success, yields register, map, pointer query, unregister: one successful map, no unmap, and a trace the protocol rejects. |
| Protocol.CountsFollowMonitor | src/lib.rs:106-112 | Along any accepted trace, successful maps minus unmaps tracks the open mapping, and register and unregister calls track the monitor state. |
| Protocol.PrefixBalanced | src/lib.rs:106-112 | In every prefix of an accepted trace, successful maps minus unmaps is 0 or 1: never two guards. |
| Protocol.EverySuccessfulMapIsClosed | src/lib.rs:153-162 | In an accepted trace with no mapping open, the first unmap after each successful map is on the same handle and stream, and nothing but passive events precede it. |

## Notes on the code

The model follows the code in both cases below.

- The two `Drop` cleanup paths log a failing status (src/lib.rs:98-99 and
  159-160). The compensating unmap after a failed pointer query
  (src/lib.rs:135) discards its status: it is neither checked nor logged.
  `Interop.NewMapped` records that unmap's status in the trace and logs
  nothing.
- `map_resource` formats the native code into an `anyhow` message
  (src/lib.rs:65), and `with_mapped` converts that message into the caller's
  error type. The model keeps the native code as a `MapFailed(code)` value
  instead of message text.

## Findings

| source | as written | input that shows it | evidently intended | confidence | as-written member | corrected member |
|---|---|---|---|---|---|---|
| src/lib.rs:104-118 | The guard's `Drop` is the only unmap, and `CudaMappedResource::new` is public. A safe `std::mem::forget` on the guard ends its borrow with no unmap, so the resource can then be copied into or dropped while still mapped. | Map a guard with every status success, `std::mem::forget` it, then drop the resource. The trace is register, map, pointer query, unregister: the resource is unregistered while mapped. | A mapping is always unmapped before the resource is copied into, mapped again or unregistered. For example, the guard is not public, and `with_mapped` lends it to the closure by reference and drops it itself. | medium; not executed | Lifecycle.LeakedGuardBreaksProtocol | Lifecycle.ReachableTraces |

## Left out

- build.rs: a bindgen build script with no runtime logic.
- The bodies of the CUDA calls and the semantics of `CopyResource`. They are
  opaque events whose status is a free input.
- The accessors `raw`, `resource` and `device_context`. They only return the
  stored fields `handle`, `resource` and `deviceContext`. Writes to the public
  fields are the `Reassign` step; reassigning `resource` does not re-register,
  so the stored handle still names the buffer registered in `new`.
- `unsafe impl Send` and moving the resource between threads. That is a
  concurrency concern; the model is sequential.
- Raw pointers and `as_raw()`. Handles, streams, device pointers and D3D11
  objects are opaque natural numbers. `size as usize` does not change the
  value, and sizes are `nat`.
- The count argument `1` of the map and unmap calls. A single handle stands
  for the one-element array.
- `windows::core::Error::from_win32()`. It reads the thread's last OS error,
  which is the input `lastError`. The model does not claim that a
  registration error carries the CUDA code.
- The text of `eprintln!` and `anyhow` messages. A log is a `Logged` event
  with the code; a map error is `MapFailed(code)`.
- Interop.WithMapped: the closure is a total function and is assumed to let
  the guard drop when it returns. A closure that calls `std::mem::forget` on
  the guard would leave the resource mapped. That is the leak in Findings, and
  here it is not modelled. A panic that unwinds also drops the guard, so it
  leaves the same trace.
- Lifecycle.Apply: leaked guards are not steps of `Apply`, so `Run` and every
  property proved about it cover only programs in which each guard ends by
  being dropped. That covers `std::mem::forget`, `ManuallyDrop` and `Rc`
  cycles. The leaking step exists only in `ApplyAsWritten` and
  `RunAsWritten`, where the protocol can be broken (Findings).
- Lifecycle.Run: the closures in a `Scope` step return `Result<int, int>`.
  `with_mapped` itself is modelled for any result and error types.
- Kernels running asynchronously on the stream after the unmap. The trace
  records issue order only.
