/**
 The operations of `Interop` against the protocol of `Protocol`: each operation,
 whatever statuses the runtime returns, extends a conforming trace to a
 conforming trace, and issues the native calls it should. A program in which
 every guard ends by being dropped is a sequence of operations (`Op`) run by
 `Run`; running one from a fresh registration keeps the trace conforming, which
 bounds the open mappings and the unregistrations of every reachable trace.
 A guard that is leaked instead (`std::mem::forget`) ends the borrow without an
 unmap; `RunAsWritten` admits that step and `LeakedGuardBreaksProtocol` shows a
 trace it reaches that unregisters a mapped resource.
 */
module Lifecycle {
  import opened Native
  import opened Protocol
  import opened Interop

  /** The monitor state the resource's own state stands for. */
  function Abstract(res: CudaD3D11Resource): Mon {
    if res.dropped then Retired(res.handle)
    else match res.phase
      case Registered => Idle(res.handle)
      case Mapped(s, _, _) => Live(res.handle, s)
  }

  /** `t` is a trace the protocol accepts, ending in the state `res` stands for. */
  predicate Conforms(res: CudaD3D11Resource, t: Trace) {
    Monitor(t) == Abstract(res)
  }

  /** The monitor state after an extension `t'` of a conforming trace `t` is the
      state `res` stands for, advanced by the appended events `t'[|t|..]`. */
  lemma ReadExtension(res: CudaD3D11Resource, t: Trace, t': Trace)
    requires Conforms(res, t) && Extends(t, t')
    ensures Monitor(t') == Replay(Abstract(res), t'[|t|..])
  {
    assert t' == t + t'[|t|..];
    ReplayAppend(Unborn, t, t'[|t|..]);
  }

  // ---------------------------------------------------------------------------
  // Each operation keeps the trace conforming, whatever the statuses.
  // ---------------------------------------------------------------------------

  /** A successful registration starts a conforming trace; a failed one leaves
      a trace on which no further call is allowed. */
  lemma NewConforms(deviceContext: Context, resource: Buffer, written: Handle, status: Status, lastError: int)
    ensures var r := New(deviceContext, resource, written, status, lastError);
            && (r.value.Ok? ==> Conforms(r.value.value, r.trace))
            && (r.value.Err? ==> Monitor(r.trace) == Refused)
  {
    var r := New(deviceContext, resource, written, status, lastError);
    ReplayOne(Unborn, r.trace[0]);
    assert r.trace == [r.trace[0]];
  }

  lemma CopyFromConforms(res: CudaD3D11Resource, src: Buffer, t: Trace)
    requires res.Exclusive() && Conforms(res, t)
    ensures var r := CopyFrom(res, src, t); Conforms(r.value, r.trace)
  {
    var r := CopyFrom(res, src, t);
    ReadExtension(res, t, r.trace);
    assert r.trace[|t|..] == [CopyResource(res.deviceContext, res.resource, src)];
    ReplayOne(Abstract(res), CopyResource(res.deviceContext, res.resource, src));
  }

  /** Every outcome of `CudaMappedResource::new` conforms: a failed map stays
      `Idle`, a failed pointer query is undone on the same stream, a success
      leaves exactly the guard's mapping open. */
  lemma NewMappedConforms(res: CudaD3D11Resource, stream: Stream, mapStatus: Status, ptrStatus: Status,
                          devPtr: DevPtr, size: nat, undoStatus: Status, t: Trace)
    requires res.Exclusive() && Conforms(res, t)
    ensures var a := NewMapped(res, stream, mapStatus, ptrStatus, devPtr, size, undoStatus, t);
            Conforms(a.res, a.trace)
  {
    var a := NewMapped(res, stream, mapStatus, ptrStatus, devPtr, size, undoStatus, t);
    ReadExtension(res, t, a.trace);
    var ext := a.trace[|t|..];
    var h := res.handle;
    if mapStatus != CudaSuccess {
      assert ext == [Map(h, stream, mapStatus)];
      ReplayOne(Idle(h), Map(h, stream, mapStatus));
    } else if ptrStatus != CudaSuccess {
      assert ext == [Map(h, stream, mapStatus), GetMappedPointer(h, ptrStatus), Unmap(h, stream, undoStatus)];
      ReplayThree(Idle(h), Map(h, stream, mapStatus), GetMappedPointer(h, ptrStatus), Unmap(h, stream, undoStatus));
    } else {
      assert ext == [Map(h, stream, mapStatus), GetMappedPointer(h, ptrStatus)];
      ReplayTwo(Idle(h), Map(h, stream, mapStatus), GetMappedPointer(h, ptrStatus));
    }
  }

  lemma DropMappedConforms(res: CudaD3D11Resource, g: CudaMappedResource, status: Status, t: Trace)
    requires !res.dropped && res.handle == g.handle && res.phase == Mapped(g.streamPtr, g.devPtr, g.size)
    requires Conforms(res, t)
    ensures var r := DropMapped(res, g, status, t); Conforms(r.value, r.trace)
  {
    var r := DropMapped(res, g, status, t);
    ReadExtension(res, t, r.trace);
    var ext := r.trace[|t|..];
    if status == CudaSuccess {
      assert ext == [Unmap(g.handle, g.streamPtr, status)];
      ReplayOne(Abstract(res), Unmap(g.handle, g.streamPtr, status));
    } else {
      assert ext == [Unmap(g.handle, g.streamPtr, status), Logged(UnmapFailed(status))];
      ReplayTwo(Abstract(res), Unmap(g.handle, g.streamPtr, status), Logged(UnmapFailed(status)));
    }
  }

  lemma DropResourceConforms(res: CudaD3D11Resource, status: Status, t: Trace)
    requires res.Exclusive() && Conforms(res, t)
    ensures var r := DropResource(res, status, t); Conforms(r.value, r.trace)
  {
    var r := DropResource(res, status, t);
    ReadExtension(res, t, r.trace);
    var ext := r.trace[|t|..];
    if status == CudaSuccess {
      assert ext == [Unregister(res.handle, status)];
      ReplayOne(Abstract(res), Unregister(res.handle, status));
    } else {
      assert ext == [Unregister(res.handle, status), Logged(UnregisterFailed(status))];
      ReplayTwo(Abstract(res), Unregister(res.handle, status), Logged(UnregisterFailed(status)));
    }
  }

  /** `with_mapped` returns with the resource `Idle` again on every path, and the
      closure runs inside the mapping on the mapped stream. */
  lemma WithMappedConforms<R, E>(res: CudaD3D11Resource, stream: Stream, mapStatus: Status, ptrStatus: Status,
                                 devPtr: DevPtr, size: nat, undoStatus: Status, unmapStatus: Status,
                                 f: CudaMappedResource -> Result<R, E>, fromMapError: MapError -> E, t: Trace)
    requires res.Exclusive() && Conforms(res, t)
    ensures var w := WithMapped(res, stream, mapStatus, ptrStatus, devPtr, size, undoStatus, unmapStatus,
                                f, fromMapError, t);
            Conforms(w.res, w.trace)
  {
    var a := NewMapped(res, stream, mapStatus, ptrStatus, devPtr, size, undoStatus, t);
    NewMappedConforms(res, stream, mapStatus, ptrStatus, devPtr, size, undoStatus, t);
    if a.guard.Ok? {
      var g := a.guard.value;
      var called := a.trace + [Invoke(g.streamPtr, g.devPtr, g.size)];
      ReplayAppend(Unborn, a.trace, [Invoke(g.streamPtr, g.devPtr, g.size)]);
      ReplayOne(Monitor(a.trace), Invoke(g.streamPtr, g.devPtr, g.size));
      DropMappedConforms(a.res, g, unmapStatus, called);
    }
  }

  // ---------------------------------------------------------------------------
  // The native calls each operation issues.
  // ---------------------------------------------------------------------------

  /** `CudaMappedResource::new` issues one map; the pointer query only after a
      successful map; an unmap only when the map succeeded and the query failed;
      and leaves a mapping open exactly when it returns a guard. */
  lemma NewMappedCalls(res: CudaD3D11Resource, stream: Stream, mapStatus: Status, ptrStatus: Status,
                       devPtr: DevPtr, size: nat, undoStatus: Status, t: Trace)
    requires res.Exclusive()
    ensures var a := NewMapped(res, stream, mapStatus, ptrStatus, devPtr, size, undoStatus, t);
            var ext := a.trace[|t|..];
            && Count(ext, MapCall) == 1
            && Count(ext, GetPointerCall) == (if mapStatus == CudaSuccess then 1 else 0)
            && Count(ext, UnmapCall) == (if mapStatus == CudaSuccess && ptrStatus != CudaSuccess then 1 else 0)
            && Count(ext, MapOk) == Count(ext, UnmapCall) + (if a.guard.Ok? then 1 else 0)
  {
    var a := NewMapped(res, stream, mapStatus, ptrStatus, devPtr, size, undoStatus, t);
    var ext := a.trace[|t|..];
    var h := res.handle;
    var mapCall, query, undo := Map(h, stream, mapStatus), GetMappedPointer(h, ptrStatus), Unmap(h, stream, undoStatus);
    forall k: Kind ensures Count([mapCall], k) == Tally(mapCall, k) && Count([mapCall, query], k) == Tally(mapCall, k) + Tally(query, k)
                           && Count([mapCall, query, undo], k) == Tally(mapCall, k) + Tally(query, k) + Tally(undo, k) {
      CountOne(mapCall, k);
      CountTwo(mapCall, query, k);
      CountThree(mapCall, query, undo, k);
    }
    if mapStatus != CudaSuccess {
      assert ext == [mapCall];
    } else if ptrStatus != CudaSuccess {
      assert ext == [mapCall, query, undo];
    } else {
      assert ext == [mapCall, query];
    }
  }

  /** Dropping a guard issues exactly one unmap and no map, and logs exactly
      when the unmap fails. */
  lemma DropMappedCalls(res: CudaD3D11Resource, g: CudaMappedResource, status: Status, t: Trace)
    requires !res.dropped && res.handle == g.handle && res.phase == Mapped(g.streamPtr, g.devPtr, g.size)
    ensures var ext := DropMapped(res, g, status, t).trace[|t|..];
            && Count(ext, UnmapCall) == 1 && Count(ext, MapCall) == 0
            && Count(ext, LogCall) == (if status == CudaSuccess then 0 else 1)
  {
  }

  /** Dropping the resource issues exactly one unregister and no other CUDA
      call, and logs exactly when the unregister fails. */
  lemma DropResourceCalls(res: CudaD3D11Resource, status: Status, t: Trace)
    requires res.Exclusive()
    ensures var ext := DropResource(res, status, t).trace[|t|..];
            && Count(ext, UnregisterCall) == 1 && Count(ext, MapCall) == 0 && Count(ext, UnmapCall) == 0
            && Count(ext, LogCall) == (if status == CudaSuccess then 0 else 1)
  {
  }

  /** `with_mapped` calls the closure exactly once if mapping succeeds and never
      otherwise, and every successful map it makes is unmapped before it returns. */
  lemma WithMappedCalls<R, E>(res: CudaD3D11Resource, stream: Stream, mapStatus: Status, ptrStatus: Status,
                              devPtr: DevPtr, size: nat, undoStatus: Status, unmapStatus: Status,
                              f: CudaMappedResource -> Result<R, E>, fromMapError: MapError -> E, t: Trace)
    requires res.Exclusive()
    ensures var w := WithMapped(res, stream, mapStatus, ptrStatus, devPtr, size, undoStatus, unmapStatus,
                                f, fromMapError, t);
            var ext := w.trace[|t|..];
            && Count(ext, InvokeCall) == (if mapStatus == CudaSuccess && ptrStatus == CudaSuccess then 1 else 0)
            && Count(ext, MapOk) == Count(ext, UnmapCall)
            && Count(ext, UnmapCall) == (if mapStatus == CudaSuccess then 1 else 0)
  {
    var w := WithMapped(res, stream, mapStatus, ptrStatus, devPtr, size, undoStatus, unmapStatus,
                        f, fromMapError, t);
    var ext := w.trace[|t|..];
    var h := res.handle;
    var mapCall, query := Map(h, stream, mapStatus), GetMappedPointer(h, ptrStatus);
    if mapStatus != CudaSuccess {
      assert ext == [mapCall];
      forall k: Kind ensures Count(ext, k) == Tally(mapCall, k) { CountOne(mapCall, k); }
    } else if ptrStatus != CudaSuccess {
      var undo := Unmap(h, stream, undoStatus);
      assert ext == [mapCall, query, undo];
      forall k: Kind ensures Count(ext, k) == Tally(mapCall, k) + Tally(query, k) + Tally(undo, k) {
        CountThree(mapCall, query, undo, k);
      }
    } else {
      var call, unmap := Invoke(stream, devPtr, size), Unmap(h, stream, unmapStatus);
      var log := if unmapStatus == CudaSuccess then [] else [Logged(UnmapFailed(unmapStatus))];
      assert ext == [mapCall, query, call, unmap] + log;
      forall k: Kind ensures Count(ext, k) == Tally(mapCall, k) + Tally(query, k) + Tally(call, k) + Tally(unmap, k)
                                             + Count(log, k) {
        CountFour(mapCall, query, call, unmap, k);
        CountAppend([mapCall, query, call, unmap], log, k);
      }
      if log != [] {
        CountOne(log[0], MapOk);
        CountOne(log[0], UnmapCall);
        CountOne(log[0], InvokeCall);
        assert log == [log[0]];
      }
    }
  }

  /** On a full success the guard hands back exactly the pointer and size the
      runtime returned. */
  lemma AsPtrReportsRuntimeValues(res: CudaD3D11Resource, stream: Stream, devPtr: DevPtr, size: nat,
                                  undoStatus: Status, t: Trace)
    requires res.Exclusive()
    ensures var a := NewMapped(res, stream, CudaSuccess, CudaSuccess, devPtr, size, undoStatus, t);
            a.guard.Ok? && AsPtr(a.guard.value) == (devPtr, size)
  {
  }

  // ---------------------------------------------------------------------------
  // Programs: sequences of operations the borrow checker accepts.
  // ---------------------------------------------------------------------------

  /** One use of the API, with the statuses the runtime returns to it. A `Scope`
      is one `with_mapped` call with the caller's closure and error conversion.
      `Reassign` stores new values in the public fields `resource` and
      `device_context`. `Forget` leaks the live guard (`std::mem::forget`). */
  datatype Op =
    | Copy(src: Buffer)
    | Reassign(resource: Buffer, deviceContext: Context)
    | MapGuard(stream: Stream, mapStatus: Status, ptrStatus: Status, devPtr: DevPtr, size: nat, undoStatus: Status)
    | DropGuard(status: Status)
    | Scope(stream: Stream, mapStatus: Status, ptrStatus: Status, devPtr: DevPtr, size: nat,
            undoStatus: Status, unmapStatus: Status,
            f: CudaMappedResource -> Result<int, int>, fromMapError: MapError -> int)
    | DropRes(status: Status)
    | Forget

  /** A registered resource, the guard borrowing it if any, and the trace so far. */
  datatype Session = Session(res: CudaD3D11Resource, guard: Option<CudaMappedResource>, trace: Trace)

  /** The guard and the resource's phase agree, and the trace conforms. */
  predicate Valid(s: Session) {
    && Conforms(s.res, s.trace)
    && (s.guard.Some? <==> s.res.phase.Mapped?)
    && (s.guard.Some? ==>
          && !s.res.dropped
          && s.res.handle == s.guard.value.handle
          && s.res.phase == Mapped(s.guard.value.streamPtr, s.guard.value.devPtr, s.guard.value.size))
  }

  /** The session after `op` in a program where every guard ends by being
      dropped, or `None` when `op` is not such a step here: the borrow checker
      rejects a copy, reassignment, map or drop while a guard borrows the
      resource, a guard drop with no guard, and any use after the resource was
      dropped; and `Forget` is never such a step. */
  function Apply(s: Session, op: Op): Option<Session> {
    match op
    case Copy(src) =>
      if s.guard.None? && s.res.Exclusive() then
        var c := CopyFrom(s.res, src, s.trace);
        Some(Session(c.value, None, c.trace))
      else None
    case MapGuard(stream, mapStatus, ptrStatus, devPtr, size, undoStatus) =>
      if s.guard.None? && s.res.Exclusive() then
        var a := NewMapped(s.res, stream, mapStatus, ptrStatus, devPtr, size, undoStatus, s.trace);
        Some(Session(a.res, if a.guard.Ok? then Some(a.guard.value) else None, a.trace))
      else None
    case DropGuard(status) =>
      if s.guard.Some? && !s.res.dropped && s.res.handle == s.guard.value.handle
         && s.res.phase == Mapped(s.guard.value.streamPtr, s.guard.value.devPtr, s.guard.value.size) then
        var d := DropMapped(s.res, s.guard.value, status, s.trace);
        Some(Session(d.value, None, d.trace))
      else None
    case Scope(stream, mapStatus, ptrStatus, devPtr, size, undoStatus, unmapStatus, f, fromMapError) =>
      if s.guard.None? && s.res.Exclusive() then
        var w := WithMapped(s.res, stream, mapStatus, ptrStatus, devPtr, size, undoStatus, unmapStatus,
                            f, fromMapError, s.trace);
        Some(Session(w.res, None, w.trace))
      else None
    case Reassign(resource, deviceContext) =>
      if s.guard.None? && s.res.Exclusive() then
        Some(Session(s.res.(resource := resource, deviceContext := deviceContext), None, s.trace))
      else None
    case DropRes(status) =>
      if s.guard.None? && s.res.Exclusive() then
        var d := DropResource(s.res, status, s.trace);
        Some(Session(d.value, None, d.trace))
      else None
    case Forget => None
  }

  function Run(s: Session, ops: seq<Op>): Option<Session>
    decreases |ops|
  {
    if ops == [] then Some(s)
    else match Apply(s, ops[0])
      case None => None
      case Some(s') => Run(s', ops[1..])
  }

  /** The session right after a successful `CudaD3D11Resource::new`. */
  function Opened(deviceContext: Context, resource: Buffer, written: Handle, lastError: int): Session {
    var n := New(deviceContext, resource, written, CudaSuccess, lastError);
    Session(n.value.value, None, n.trace)
  }

  lemma ApplyPreservesValid(s: Session, op: Op)
    requires Valid(s) && Apply(s, op).Some?
    ensures Valid(Apply(s, op).value)
  {
    match op
    case Copy(src) =>
      CopyFromConforms(s.res, src, s.trace);
    case MapGuard(stream, mapStatus, ptrStatus, devPtr, size, undoStatus) =>
      NewMappedConforms(s.res, stream, mapStatus, ptrStatus, devPtr, size, undoStatus, s.trace);
    case DropGuard(status) =>
      DropMappedConforms(s.res, s.guard.value, status, s.trace);
    case Scope(stream, mapStatus, ptrStatus, devPtr, size, undoStatus, unmapStatus, f, fromMapError) =>
      WithMappedConforms(s.res, stream, mapStatus, ptrStatus, devPtr, size, undoStatus, unmapStatus,
                         f, fromMapError, s.trace);
    case Reassign(resource, deviceContext) =>
    case DropRes(status) =>
      DropResourceConforms(s.res, status, s.trace);
    case Forget =>
  }

  lemma {:induction false} RunPreservesValid(s: Session, ops: seq<Op>)
    requires Valid(s) && Run(s, ops).Some?
    ensures Valid(Run(s, ops).value)
    decreases |ops|
  {
    if ops != [] {
      ApplyPreservesValid(s, ops[0]);
      RunPreservesValid(Apply(s, ops[0]).value, ops[1..]);
    }
  }

  /** Whatever the runtime returns and whatever the program does, the trace of
      one registered buffer registers once, has one mapping open exactly while a
      guard is alive, unregisters once if and only if the resource was dropped,
      and at no point has more than one mapping open. */
  lemma ReachableTraces(deviceContext: Context, resource: Buffer, written: Handle, lastError: int, ops: seq<Op>)
    requires Run(Opened(deviceContext, resource, written, lastError), ops).Some?
    ensures var s := Run(Opened(deviceContext, resource, written, lastError), ops).value;
            && Monitor(s.trace) != Broken
            && Count(s.trace, RegisterCall) == 1
            && Count(s.trace, MapOk) == Count(s.trace, UnmapCall) + (if s.guard.Some? then 1 else 0)
            && Count(s.trace, UnregisterCall) == (if s.res.dropped then 1 else 0)
            && (forall k :: 0 <= k <= |s.trace| ==>
                  Count(s.trace[..k], UnmapCall) <= Count(s.trace[..k], MapOk) <= Count(s.trace[..k], UnmapCall) + 1)
  {
    var s0 := Opened(deviceContext, resource, written, lastError);
    NewConforms(deviceContext, resource, written, CudaSuccess, lastError);
    RunPreservesValid(s0, ops);
    var s := Run(s0, ops).value;
    CountsFollowMonitor(Unborn, s.trace);
    PrefixBalanced(s.trace);
  }

  /** Once no guard is alive, every successful map in a reachable trace has been
      followed by exactly one unmap of the same handle on the same stream, with
      only the pointer query and the closure in between. */
  lemma ReachableMapsAreClosed(deviceContext: Context, resource: Buffer, written: Handle, lastError: int,
                               ops: seq<Op>, i: nat)
    requires Run(Opened(deviceContext, resource, written, lastError), ops).Some?
    requires Run(Opened(deviceContext, resource, written, lastError), ops).value.guard.None?
    requires var t := Run(Opened(deviceContext, resource, written, lastError), ops).value.trace;
             i < |t| && t[i].Map? && t[i].status == CudaSuccess
    ensures var t := Run(Opened(deviceContext, resource, written, lastError), ops).value.trace;
            exists j :: i < j < |t| && UnmapOf(t[j], t[i].handle, t[i].stream)
                        && forall k :: i < k < j ==> Passive(t[k])
  {
    var s0 := Opened(deviceContext, resource, written, lastError);
    NewConforms(deviceContext, resource, written, CudaSuccess, lastError);
    RunPreservesValid(s0, ops);
    var s := Run(s0, ops).value;
    EverySuccessfulMapIsClosed(s.trace, i);
  }

  // ---------------------------------------------------------------------------
  // The API as written also lets a program leak a guard.
  // ---------------------------------------------------------------------------

  /** `Apply`, plus the step safe Rust also accepts: `std::mem::forget` on the
      live guard. Its borrow of the resource ends, so the borrow checker lets
      the program copy, map or drop again, but the guard's `Drop` never runs and
      no unmap is issued: the mapping stays open while the resource counts as
      `Registered` again. */
  function ApplyAsWritten(s: Session, op: Op): Option<Session> {
    if op.Forget? then
      if s.guard.Some? && !s.res.dropped then Some(Session(s.res.(phase := Registered), None, s.trace))
      else None
    else Apply(s, op)
  }

  function RunAsWritten(s: Session, ops: seq<Op>): Option<Session>
    decreases |ops|
  {
    if ops == [] then Some(s)
    else match ApplyAsWritten(s, ops[0])
      case None => None
      case Some(s') => RunAsWritten(s', ops[1..])
  }

  /** Map a guard, leak it, drop the resource: every call succeeds, and the
      resource is unregistered while its one successful map was never unmapped,
      which the protocol rejects. */
  lemma LeakedGuardBreaksProtocol(deviceContext: Context, resource: Buffer, written: Handle, lastError: int,
                                  stream: Stream, devPtr: DevPtr, size: nat)
    ensures var r := RunAsWritten(Opened(deviceContext, resource, written, lastError),
                                  [MapGuard(stream, CudaSuccess, CudaSuccess, devPtr, size, CudaSuccess),
                                   Forget, DropRes(CudaSuccess)]);
            && r.Some? && r.value.res.dropped
            && r.value.trace == [Register(resource, RegisterFlagsNone, written, CudaSuccess),
                                 Map(written, stream, CudaSuccess), GetMappedPointer(written, CudaSuccess),
                                 Unregister(written, CudaSuccess)]
            && Count(r.value.trace, MapOk) == 1 && Count(r.value.trace, UnmapCall) == 0
            && Monitor(r.value.trace) == Broken
  {
    var s0 := Opened(deviceContext, resource, written, lastError);
    var ops := [MapGuard(stream, CudaSuccess, CudaSuccess, devPtr, size, CudaSuccess), Forget, DropRes(CudaSuccess)];
    var a := Register(resource, RegisterFlagsNone, written, CudaSuccess);
    var b := Map(written, stream, CudaSuccess);
    var c := GetMappedPointer(written, CudaSuccess);
    var d := Unregister(written, CudaSuccess);
    var s1 := ApplyAsWritten(s0, ops[0]).value;
    assert s1.trace == [a, b, c];
    var s2 := ApplyAsWritten(s1, ops[1]).value;
    var s3 := ApplyAsWritten(s2, ops[2]).value;
    assert s3.trace == [a, b, c, d];
    assert RunAsWritten(s3, ops[1..][1..][1..]) == Some(s3);
    assert RunAsWritten(s2, ops[1..][1..]) == Some(s3);
    assert RunAsWritten(s1, ops[1..]) == Some(s3);
    CountFour(a, b, c, d, MapOk);
    CountFour(a, b, c, d, UnmapCall);
    ReplayFour(Unborn, a, b, c, d);
  }
}
