/**
 `CudaD3D11Resource` and its mapping guard `CudaMappedResource` (src/lib.rs) as
 pure functions. Every operation takes the trace of native calls made so far and
 returns it extended by the calls it makes; the status of each native call is a
 parameter. What Rust enforces with `&mut self` (no copy, map or drop while a
 guard is alive) is the precondition `Exclusive()`.
 */
module Interop {
  import opened Native

  /** `Registered`, or `Mapped` while a guard is alive, with the values the guard recorded. */
  datatype Phase = Registered | Mapped(stream: Stream, devPtr: DevPtr, size: nat)

  /** The registered resource: the handle written by registration, the D3D11 buffer
      and device context it keeps, its phase, and whether `Drop` has run. */
  datatype CudaD3D11Resource = CudaD3D11Resource(
    handle: Handle,
    resource: Buffer,
    deviceContext: Context,
    phase: Phase,
    dropped: bool)
  {
    /** Holding `&mut self` with no live guard: copy, map and drop are allowed. */
    predicate Exclusive() {
      phase == Registered && !dropped
    }
  }

  /** The guard: the borrowed resource's handle, the stream it was mapped on,
      and the device pointer and size the runtime returned. */
  datatype CudaMappedResource = CudaMappedResource(handle: Handle, streamPtr: Stream, devPtr: DevPtr, size: nat)

  /** `windows::core::Error::from_win32()`: built from the thread's last OS error,
      not from the CUDA status. */
  datatype PlatformError = Win32Error(lastError: int)

  /** The `anyhow` error `map_resource` builds around the native code. */
  datatype MapError = MapFailed(code: Status)

  datatype Traced<T> = Traced(value: T, trace: Trace)

  /** Outcome of a map attempt: the resource afterwards, the guard or an error, the trace. */
  datatype Attempt<E> = Attempt(res: CudaD3D11Resource, guard: Result<CudaMappedResource, E>, trace: Trace)

  /** Outcome of `with_mapped`: the resource afterwards, the caller's result, the trace. */
  datatype Scoped<R, E> = Scoped(res: CudaD3D11Resource, result: Result<R, E>, trace: Trace)

  /** `CudaD3D11Resource::new`: registers `resource`; `written` is the handle the
      runtime writes, `status` what it returns, `lastError` the OS error state. */
  function New(deviceContext: Context, resource: Buffer, written: Handle, status: Status, lastError: int)
    : (r: Traced<Result<CudaD3D11Resource, PlatformError>>)
    ensures |r.trace| == 1 && r.trace[0].Register? && r.trace[0].buffer == resource
    ensures r.trace[0].handle == written && r.trace[0].status == status
    ensures r.value.Ok? <==> status == CudaSuccess
    ensures r.value.Ok? ==> r.value.value.handle == written && r.value.value.Exclusive()
    ensures r.value.Ok? ==> r.value.value.resource == resource && r.value.value.deviceContext == deviceContext
    ensures r.value.Err? ==> r.value.error == Win32Error(lastError)
  {
    var t := [Register(resource, RegisterFlagsNone, written, status)];
    if status != CudaSuccess then Traced(Err(Win32Error(lastError)), t)
    else Traced(Ok(CudaD3D11Resource(written, resource, deviceContext, Registered, false)), t)
  }

  /** `copy_from`: a renderer-side `CopyResource` from `src` into the buffer
      currently stored in the public field `resource`, through the context
      currently stored in `device_context`. */
  function CopyFrom(res: CudaD3D11Resource, src: Buffer, t: Trace): (r: Traced<CudaD3D11Resource>)
    requires res.Exclusive()
    ensures r.value == res
    ensures Extends(t, r.trace) && |r.trace| == |t| + 1
    ensures r.trace[|t|] == CopyResource(res.deviceContext, res.resource, src)
  {
    Traced(res, t + [CopyResource(res.deviceContext, res.resource, src)])
  }

  /** `CudaMappedResource::new`: map, then fetch the device pointer and size; if
      the pointer query fails, unmap on the same stream (`undoStatus` is that
      unmap's status, which the code ignores) and return the query's code. */
  function NewMapped(res: CudaD3D11Resource, stream: Stream, mapStatus: Status, ptrStatus: Status,
                     devPtr: DevPtr, size: nat, undoStatus: Status, t: Trace): (r: Attempt<Status>)
    requires res.Exclusive()
    ensures Extends(t, r.trace) && |r.trace| > |t| && r.trace[|t|] == Map(res.handle, stream, mapStatus)
    ensures r.guard.Ok? <==> mapStatus == CudaSuccess && ptrStatus == CudaSuccess
    ensures r.guard.Err? ==> r.res == res
    ensures mapStatus != CudaSuccess ==> r.guard.error == mapStatus && |r.trace| == |t| + 1
    ensures mapStatus == CudaSuccess && ptrStatus != CudaSuccess ==>
              && r.guard.error == ptrStatus
              && r.trace[|r.trace| - 1] == Unmap(res.handle, stream, undoStatus)
    ensures r.guard.Ok? ==>
              && r.guard.value == CudaMappedResource(res.handle, stream, devPtr, size)
              && r.res == res.(phase := Mapped(stream, devPtr, size))
  {
    var h := res.handle;
    if mapStatus != CudaSuccess then
      Attempt(res, Err(mapStatus), t + [Map(h, stream, mapStatus)])
    else if ptrStatus != CudaSuccess then
      Attempt(res, Err(ptrStatus),
              t + [Map(h, stream, mapStatus), GetMappedPointer(h, ptrStatus), Unmap(h, stream, undoStatus)])
    else
      Attempt(res.(phase := Mapped(stream, devPtr, size)), Ok(CudaMappedResource(h, stream, devPtr, size)),
              t + [Map(h, stream, mapStatus), GetMappedPointer(h, ptrStatus)])
  }

  /** `as_ptr`: the device pointer and byte size held by the guard. */
  function AsPtr(g: CudaMappedResource): (r: (DevPtr, nat))
    ensures r.0 == g.devPtr && r.1 == g.size
  {
    (g.devPtr, g.size)
  }

  /** `Drop for CudaMappedResource`: unmap on the recorded stream; a failure is
      only logged, and the resource is `Registered` afterwards either way. */
  function DropMapped(res: CudaD3D11Resource, g: CudaMappedResource, status: Status, t: Trace)
    : (r: Traced<CudaD3D11Resource>)
    requires !res.dropped && res.handle == g.handle && res.phase == Mapped(g.streamPtr, g.devPtr, g.size)
    ensures r.value == res.(phase := Registered) && r.value.Exclusive()
    ensures Extends(t, r.trace) && |r.trace| > |t| && r.trace[|t|] == Unmap(g.handle, g.streamPtr, status)
    ensures status == CudaSuccess ==> |r.trace| == |t| + 1
    ensures status != CudaSuccess ==> |r.trace| == |t| + 2 && r.trace[|t| + 1] == Logged(UnmapFailed(status))
  {
    var unmap := [Unmap(g.handle, g.streamPtr, status)];
    var log := if status == CudaSuccess then [] else [Logged(UnmapFailed(status))];
    Traced(res.(phase := Registered), t + unmap + log)
  }

  /** `Drop for CudaD3D11Resource`: unregister the stored handle; a failure is only logged. */
  function DropResource(res: CudaD3D11Resource, status: Status, t: Trace): (r: Traced<CudaD3D11Resource>)
    requires res.Exclusive()
    ensures r.value == res.(dropped := true)
    ensures Extends(t, r.trace) && |r.trace| > |t| && r.trace[|t|] == Unregister(res.handle, status)
    ensures status == CudaSuccess ==> |r.trace| == |t| + 1
    ensures status != CudaSuccess ==> |r.trace| == |t| + 2 && r.trace[|t| + 1] == Logged(UnregisterFailed(status))
  {
    var unregister := [Unregister(res.handle, status)];
    var log := if status == CudaSuccess then [] else [Logged(UnregisterFailed(status))];
    Traced(res.(dropped := true), t + unregister + log)
  }

  /** `map_resource`: `CudaMappedResource::new` with the native code of a failure
      wrapped in a `MapError`. */
  function MapResource(res: CudaD3D11Resource, stream: Stream, mapStatus: Status, ptrStatus: Status,
                       devPtr: DevPtr, size: nat, undoStatus: Status, t: Trace): (r: Attempt<MapError>)
    requires res.Exclusive()
    ensures var a := NewMapped(res, stream, mapStatus, ptrStatus, devPtr, size, undoStatus, t);
            && r.res == a.res && r.trace == a.trace
            && (r.guard.Ok? <==> a.guard.Ok?)
            && (r.guard.Ok? ==> r.guard.value == a.guard.value)
            && (r.guard.Err? ==> r.guard.error == MapFailed(a.guard.error))
  {
    var a := NewMapped(res, stream, mapStatus, ptrStatus, devPtr, size, undoStatus, t);
    match a.guard
    case Ok(g) => Attempt(a.res, Ok(g), a.trace)
    case Err(code) => Attempt(a.res, Err(MapFailed(code)), a.trace)
  }

  /** `with_mapped`: map, hand the guard to `f` (an `Invoke` event marks the call),
      and drop the guard when `f` returns, unmapping with `unmapStatus`. A map
      failure is turned into the caller's error type by `fromMapError` (the
      `From<anyhow::Error>` conversion) and `f` is not called. */
  function WithMapped<R, E>(res: CudaD3D11Resource, stream: Stream, mapStatus: Status, ptrStatus: Status,
                            devPtr: DevPtr, size: nat, undoStatus: Status, unmapStatus: Status,
                            f: CudaMappedResource -> Result<R, E>, fromMapError: MapError -> E, t: Trace)
    : (r: Scoped<R, E>)
    requires res.Exclusive()
    ensures r.res == res
    ensures Extends(t, r.trace)
    ensures mapStatus != CudaSuccess ==> r.result == Err(fromMapError(MapFailed(mapStatus)))
    ensures mapStatus == CudaSuccess && ptrStatus != CudaSuccess ==> r.result == Err(fromMapError(MapFailed(ptrStatus)))
    ensures mapStatus == CudaSuccess && ptrStatus == CudaSuccess ==>
              && r.result == f(CudaMappedResource(res.handle, stream, devPtr, size))
              && |r.trace| > |t| + 3
              && r.trace[|t| + 2] == Invoke(stream, devPtr, size)
              && r.trace[|t| + 3] == Unmap(res.handle, stream, unmapStatus)
  {
    var a := MapResource(res, stream, mapStatus, ptrStatus, devPtr, size, undoStatus, t);
    match a.guard
    case Err(e) => Scoped(a.res, Err(fromMapError(e)), a.trace)
    case Ok(g) =>
      var called := a.trace + [Invoke(g.streamPtr, g.devPtr, g.size)];
      var d := DropMapped(a.res, g, unmapStatus, called);
      Scoped(d.value, f(g), d.trace)
  }
}
