/**
 The interop protocol of one shared buffer, written as a monitor over the trace
 of native calls and independent of the code that produces the trace:
 register once; then any number of renderer copies and map attempts; a
 successful map must be followed by the pointer query and then by exactly one
 unmap of the same handle on the same stream, with only the pointer query and
 the caller's closure in between; finally unregister once. Any other order
 drives the monitor to `Broken`.
 */
module Protocol {
  import opened Native

  datatype Mon =
    | Unborn                                  // nothing called yet
    | Refused                                 // registration failed: no resource exists
    | Idle(handle: Handle)                    // registered, not mapped
    | Pending(handle: Handle, stream: Stream) // mapped, pointer not yet fetched
    | Undo(handle: Handle, stream: Stream)    // pointer query failed, unmap owed
    | Live(handle: Handle, stream: Stream)    // a guard holds the mapping
    | Retired(handle: Handle)                 // unregistered
    | Broken                                  // the protocol was violated

  function Advance(m: Mon, e: Event): Mon {
    match m
    case Unborn =>
      if e.Register? then (if e.status == CudaSuccess then Idle(e.handle) else Refused) else Broken
    case Refused => Broken
    case Idle(h) =>
      if e.CopyResource? || e.Logged? then m
      else if e.Map? && e.handle == h then (if e.status == CudaSuccess then Pending(h, e.stream) else m)
      else if e.Unregister? && e.handle == h then Retired(h)
      else Broken
    case Pending(h, s) =>
      if e.GetMappedPointer? && e.handle == h then
        (if e.status == CudaSuccess then Live(h, s) else Undo(h, s))
      else Broken
    case Undo(h, s) =>
      if e.Unmap? && e.handle == h && e.stream == s then Idle(h) else Broken
    case Live(h, s) =>
      if e.Invoke? && e.stream == s then m
      else if e.Unmap? && e.handle == h && e.stream == s then Idle(h)
      else Broken
    case Retired(h) => if e.Logged? then m else Broken
    case Broken => Broken
  }

  /** The monitor state after reading `t` from `m`. */
  function Replay(m: Mon, t: Trace): Mon
    decreases |t|
  {
    if t == [] then m else Replay(Advance(m, t[0]), t[1..])
  }

  /** The monitor state of a whole trace of one resource. */
  function Monitor(t: Trace): Mon {
    Replay(Unborn, t)
  }

  /** 1 while a successful map has not been undone yet. */
  function Open(m: Mon): nat {
    if m.Pending? || m.Undo? || m.Live? then 1 else 0
  }

  /** 1 once registration has been attempted. */
  function Born(m: Mon): nat {
    if m.Unborn? then 0 else 1
  }

  /** 1 once the resource has been unregistered. */
  function Gone(m: Mon): nat {
    if m.Retired? then 1 else 0
  }

  /** `e` unmaps handle `h` on stream `s`, whatever status it returned. */
  predicate UnmapOf(e: Event, h: Handle, s: Stream) {
    e.Unmap? && e.handle == h && e.stream == s
  }

  /** Events allowed between a successful map and its unmap. */
  predicate Passive(e: Event) {
    e.GetMappedPointer? || e.Invoke?
  }

  lemma {:induction false} BrokenAbsorbs(t: Trace)
    ensures Replay(Broken, t) == Broken
    decreases |t|
  {
    if t != [] {
      BrokenAbsorbs(t[1..]);
    }
  }

  /** A trace that ends well never passed through `Broken`. */
  lemma NotBrokenBefore(m: Mon, t: Trace)
    requires t != []
    requires Replay(m, t) != Broken
    ensures Advance(m, t[0]) != Broken
  {
    if Advance(m, t[0]) == Broken {
      BrokenAbsorbs(t[1..]);
    }
  }

  lemma ReplayCons(m: Mon, e: Event, rest: Trace)
    ensures Replay(m, [e] + rest) == Replay(Advance(m, e), rest)
  {
  }

  lemma ReplayOne(m: Mon, a: Event)
    ensures Replay(m, [a]) == Advance(m, a)
  {
  }

  lemma ReplayTwo(m: Mon, a: Event, b: Event)
    ensures Replay(m, [a, b]) == Advance(Advance(m, a), b)
  {
    ReplayOne(Advance(m, a), b);
    ReplayCons(m, a, [b]);
    assert [a] + [b] == [a, b];
  }

  lemma ReplayThree(m: Mon, a: Event, b: Event, c: Event)
    ensures Replay(m, [a, b, c]) == Advance(Advance(Advance(m, a), b), c)
  {
    ReplayTwo(Advance(m, a), b, c);
    ReplayCons(m, a, [b, c]);
    assert [a] + [b, c] == [a, b, c];
  }

  lemma ReplayFour(m: Mon, a: Event, b: Event, c: Event, d: Event)
    ensures Replay(m, [a, b, c, d]) == Advance(Advance(Advance(Advance(m, a), b), c), d)
  {
    ReplayThree(Advance(m, a), b, c, d);
    ReplayCons(m, a, [b, c, d]);
    assert [a] + [b, c, d] == [a, b, c, d];
  }

  lemma {:induction false} ReplayAppend(m: Mon, a: Trace, b: Trace)
    ensures Replay(m, a + b) == Replay(Replay(m, a), b)
    decreases |a|
  {
    if a == [] {
      assert a + b == b;
    } else {
      assert (a + b)[1..] == a[1..] + b;
      ReplayAppend(Advance(m, a[0]), a[1..], b);
    }
  }

  /** Along any trace the monitor accepts, successful maps exceed unmaps by
      exactly the number of open mappings, and register and unregister each
      occur once at most, as the monitor state says. */
  lemma {:induction false} CountsFollowMonitor(m: Mon, t: Trace)
    requires Replay(m, t) != Broken
    ensures Count(t, MapOk) + Open(m) == Count(t, UnmapCall) + Open(Replay(m, t))
    ensures Count(t, UnregisterCall) + Gone(m) == Gone(Replay(m, t))
    ensures Count(t, RegisterCall) + Born(m) == Born(Replay(m, t))
    decreases |t|
  {
    if t != [] {
      NotBrokenBefore(m, t);
      CountsFollowMonitor(Advance(m, t[0]), t[1..]);
    }
  }

  /** At every point of an accepted trace at most one mapping is open:
      successful maps minus unmaps is 0 or 1. */
  lemma PrefixBalanced(t: Trace)
    requires Monitor(t) != Broken
    ensures forall k :: 0 <= k <= |t| ==>
              Count(t[..k], UnmapCall) <= Count(t[..k], MapOk) <= Count(t[..k], UnmapCall) + 1
  {
    forall k | 0 <= k <= |t|
      ensures Count(t[..k], UnmapCall) <= Count(t[..k], MapOk) <= Count(t[..k], UnmapCall) + 1
    {
      assert t[..k] + t[k..] == t;
      ReplayAppend(Unborn, t[..k], t[k..]);
      if Monitor(t[..k]) == Broken {
        BrokenAbsorbs(t[k..]);
      }
      CountsFollowMonitor(Unborn, t[..k]);
    }
  }

  /** From an open mapping, a trace that ends with no mapping open contains an
      unmap of that handle on that stream, preceded only by passive events. */
  lemma {:induction false} OpenEndsWithUnmap(m: Mon, t: Trace)
    requires m.Pending? || m.Undo? || m.Live?
    requires Replay(m, t) != Broken && Open(Replay(m, t)) == 0
    ensures exists j :: 0 <= j < |t| && UnmapOf(t[j], m.handle, m.stream)
                        && forall k :: 0 <= k < j ==> Passive(t[k])
    decreases |t|
  {
    NotBrokenBefore(m, t);
    if !t[0].Unmap? {
      var m1 := Advance(m, t[0]);
      OpenEndsWithUnmap(m1, t[1..]);
      var j :| 0 <= j < |t[1..]| && UnmapOf(t[1..][j], m1.handle, m1.stream)
               && forall k :: 0 <= k < j ==> Passive(t[1..][k]);
      assert t[j + 1] == t[1..][j];
      forall k | 0 <= k < j + 1 ensures Passive(t[k]) {
        if k > 0 {
          assert t[k] == t[1..][k - 1];
        }
      }
    }
  }

  /** Every successful map in a trace that ends with no mapping open is followed
      by exactly one unmap of the same handle on the same stream: the first
      later unmap matches, and nothing but the pointer query and the caller's
      closure comes before it. */
  lemma EverySuccessfulMapIsClosed(t: Trace, i: nat)
    requires Monitor(t) != Broken && Open(Monitor(t)) == 0
    requires i < |t| && t[i].Map? && t[i].status == CudaSuccess
    ensures exists j :: i < j < |t| && UnmapOf(t[j], t[i].handle, t[i].stream)
                        && forall k :: i < k < j ==> Passive(t[k])
  {
    var rest := t[i + 1..];
    assert t == t[..i] + ([t[i]] + rest);
    ReplayAppend(Unborn, t[..i], [t[i]] + rest);
    var m0 := Monitor(t[..i]);
    NotBrokenBefore(m0, [t[i]] + rest);
    assert ([t[i]] + rest)[1..] == rest;
    var m1 := Advance(m0, t[i]);
    OpenEndsWithUnmap(m1, rest);
    var j :| 0 <= j < |rest| && UnmapOf(rest[j], m1.handle, m1.stream)
             && forall k :: 0 <= k < j ==> Passive(rest[k]);
    assert t[i + 1 + j] == rest[j];
    forall k | i < k < i + 1 + j ensures Passive(t[k]) {
      assert t[k] == rest[k - i - 1];
    }
  }
}
