/**
 The native surface the interop layer calls into: the CUDA graphics-interop
 entry points and the Direct3D 11 copy. None of these calls can be seen from
 the model, so each one is an event appended to a trace, and the status code it
 returns is an input chosen freely by the caller of the model.
 */
module Native {

  /** A `cudaError_t`; `CudaSuccess` is `cudaSuccess`, every other value is a failure cause. */
  type Status = int
  const CudaSuccess: Status := 0

  /** `cudaGraphicsRegisterFlagsNone`, the flags passed at registration. */
  const RegisterFlagsNone: nat := 0

  /** Opaque native values: a `cudaGraphicsResource*`, a stream pointer (0 is the
      default stream), a device pointer, and the identities of D3D11 COM objects. */
  type Handle = nat
  type Stream = nat
  type DevPtr = nat
  type Buffer = nat
  type Context = nat

  datatype Option<+T> = None | Some(value: T)

  datatype Result<+T, +E> = Ok(value: T) | Err(error: E)

  /** What the cleanup paths write to standard error instead of returning. */
  datatype LogEntry = UnmapFailed(code: Status) | UnregisterFailed(code: Status)

  /** One call across the native boundary, with the status it returned. */
  datatype Event =
    | Register(buffer: Buffer, flags: nat, handle: Handle, status: Status)
    | Map(handle: Handle, stream: Stream, status: Status)
    | GetMappedPointer(handle: Handle, status: Status)
    | Unmap(handle: Handle, stream: Stream, status: Status)
    | Unregister(handle: Handle, status: Status)
    | CopyResource(context: Context, dst: Buffer, src: Buffer)
    | Invoke(stream: Stream, devPtr: DevPtr, size: nat)
    | Logged(entry: LogEntry)

  type Trace = seq<Event>

  /** The classes of events the properties count. */
  datatype Kind =
    | RegisterCall
    | MapCall
    | MapOk
    | GetPointerCall
    | UnmapCall
    | UnregisterCall
    | CopyCall
    | InvokeCall
    | LogCall

  predicate Is(e: Event, k: Kind) {
    match k
    case RegisterCall => e.Register?
    case MapCall => e.Map?
    case MapOk => e.Map? && e.status == CudaSuccess
    case GetPointerCall => e.GetMappedPointer?
    case UnmapCall => e.Unmap?
    case UnregisterCall => e.Unregister?
    case CopyCall => e.CopyResource?
    case InvokeCall => e.Invoke?
    case LogCall => e.Logged?
  }

  /** Number of events of kind `k` in `t`. */
  function Count(t: Trace, k: Kind): (n: nat)
    ensures n <= |t|
  {
    if t == [] then 0
    else (if Is(t[0], k) then 1 else 0) + Count(t[1..], k)
  }

  lemma {:induction false} CountAppend(a: Trace, b: Trace, k: Kind)
    ensures Count(a + b, k) == Count(a, k) + Count(b, k)
  {
    if a != [] {
      assert (a + b)[1..] == a[1..] + b;
      CountAppend(a[1..], b, k);
    } else {
      assert a + b == b;
    }
  }

  lemma CountCons(e: Event, rest: Trace, k: Kind)
    ensures Count([e] + rest, k) == (if Is(e, k) then 1 else 0) + Count(rest, k)
  {
  }

  /** 1 if `e` is of kind `k`. */
  function Tally(e: Event, k: Kind): nat {
    if Is(e, k) then 1 else 0
  }

  lemma CountOne(a: Event, k: Kind)
    ensures Count([a], k) == Tally(a, k)
  {
  }

  lemma CountTwo(a: Event, b: Event, k: Kind)
    ensures Count([a, b], k) == Tally(a, k) + Tally(b, k)
  {
  }

  lemma CountThree(a: Event, b: Event, c: Event, k: Kind)
    ensures Count([a, b, c], k) == Tally(a, k) + Tally(b, k) + Tally(c, k)
  {
    CountTwo(b, c, k);
    CountCons(a, [b, c], k);
    assert [a] + [b, c] == [a, b, c];
  }

  lemma CountFour(a: Event, b: Event, c: Event, d: Event, k: Kind)
    ensures Count([a, b, c, d], k) == Tally(a, k) + Tally(b, k) + Tally(c, k) + Tally(d, k)
  {
    CountThree(b, c, d, k);
    CountCons(a, [b, c, d], k);
    assert [a] + [b, c, d] == [a, b, c, d];
  }

  /** `t'` is `t` with events appended: a trace only ever grows. */
  predicate Extends(t: Trace, t': Trace) {
    |t| <= |t'| && t'[..|t|] == t
  }
}
