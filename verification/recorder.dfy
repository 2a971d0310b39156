/** RecorderTimeline.cs: a bounded buffer of snapshots of a component, recorded at a fixed
    interval while time runs forward and replayed, interpolated, while it rewinds.

    The snapshot type is a parameter `S`. The component's recordable state is represented by
    the snapshot it would produce: CopySnapshot returns `live`, ApplySnapshot replaces it.
    LerpSnapshots is a function parameter that receives the interpolation factor as the
    single-precision division produces it (finite, infinite or NaN); nothing bounds it to
    [0, 1]. */
module Recorders {
  import opened Wrappers
  import opened Messages
  import opened Mathf
  import opened Lists

  /** What the recorder reads from its timeline. */
  datatype Clockwork = Clockwork(
    timeScale: real,
    time: real,
    deltaTime: real,
    rewindable: bool,
    recordingInterval: real,
    recordingDuration: real)

  /** The recorder's fields, plus the component's state and the messages it made the
      timeline send. */
  datatype Recorder<S> = Recorder(
    snapshots: seq<S>,
    times: seq<real>,
    capacity: int,
    recordingTimer: real,
    lastTimeScale: real,
    canRewind: bool,
    laterSnapshot: S,
    laterTime: real,
    earlierSnapshot: S,
    earlierTime: real,
    interpolatedSnapshot: S,
    live: S,
    messages: seq<Message>)

  /** The constructor: empty buffer, no capacity until Reset, last scale 1. The snapshot
      fields a C# default would leave empty hold the current state instead. */
  function NewRecorder<S>(live: S): (r: Recorder<S>)
    ensures r.snapshots == [] && r.times == [] && r.capacity == 0
    ensures r.lastTimeScale == 1.0 && !r.canRewind && r.live == live
  {
    Recorder([], [], 0, 0.0, 1.0, false, live, 0.0, live, 0.0, live, live, [])
  }

  /** Snapshots and their times stay paired. */
  predicate Paired<S>(r: Recorder<S>) {
    |r.times| == |r.snapshots|
  }

  /** The buffer invariant once Reset has run: paired, and never above a positive capacity. */
  predicate Bounded<S>(r: Recorder<S>) {
    Paired(r) && 1 <= r.capacity && |r.snapshots| <= r.capacity
  }

  // ---------------------------------------------------------------------------------------
  // Recording

  /** Record: nothing on a timeline that cannot rewind; otherwise, when the buffer is full,
      evict the oldest entry, then append the current state at the current time. Before the
      first Reset the capacity is 0, and evicting from the empty list throws. */
  function Record<S>(r: Recorder<S>, c: Clockwork): (out: Result<Recorder<S>>)
    requires Paired(r)
    ensures !c.rewindable ==> out == Ok(r)
    ensures out.Err? <==> c.rewindable && r.capacity == |r.snapshots| == 0
    ensures out.Err? ==> out.error == OutOfRange
    ensures out.Ok? ==> Paired(out.value)
    ensures out.Ok? && c.rewindable ==> var n := out.value;
              && n == r.(snapshots := n.snapshots, times := n.times, canRewind := true)
              && |n.snapshots| > 0 && n.snapshots[|n.snapshots| - 1] == r.live && n.times[|n.times| - 1] == c.time
    ensures Bounded(r) && c.rewindable ==>
              && out.Ok? && Bounded(out.value)
              && out.value.snapshots == LastN(r.snapshots + [r.live], r.capacity)
              && out.value.times == LastN(r.times + [c.time], r.capacity)
  {
    if !c.rewindable then Ok(r)
    else if |r.snapshots| == r.capacity && |r.snapshots| == 0 then Err(OutOfRange)
    else
      var full := |r.snapshots| == r.capacity;
      var snapshots := if full then r.snapshots[1..] else r.snapshots;
      var times := if full then r.times[1..] else r.times;
      Ok(r.(snapshots := snapshots + [r.live], times := times + [c.time], canRewind := true))
  }

  /** Progress: record when the timer has reached the interval and restart the timer, then
      let the timer run by the frame's delta time. */
  function Progress<S>(r: Recorder<S>, c: Clockwork): (out: Result<Recorder<S>>)
    requires Paired(r)
    ensures r.recordingTimer < c.recordingInterval ==> out == Ok(r.(recordingTimer := r.recordingTimer + c.deltaTime))
    ensures r.recordingTimer >= c.recordingInterval ==>
              && (out.Err? <==> Record(r, c).Err?)
              && (out.Ok? ==> out.value == Record(r, c).value.(recordingTimer := c.deltaTime))
    ensures out.Ok? ==> Paired(out.value)
    ensures Bounded(r) ==> out.Ok? && Bounded(out.value)
  {
    if r.recordingTimer >= c.recordingInterval then
      match Record(r, c)
      case Err(e) => Err(e)
      case Ok(n) => Ok(n.(recordingTimer := 0.0 + c.deltaTime))
    else Ok(r.(recordingTimer := r.recordingTimer + c.deltaTime))
  }

  // ---------------------------------------------------------------------------------------
  // Rewinding

  /** TryFindEarlierSnapshot: with `pop`, first move the newest entry into the later pair
      (failing on an empty buffer); then make the newest remaining entry the earlier pair,
      failing when none remains. */
  function TryFindEarlierSnapshot<S>(r: Recorder<S>, pop: bool): (out: (bool, Recorder<S>))
    requires Paired(r)
    ensures Paired(out.1)
    ensures !pop ==> out.0 == (|r.snapshots| >= 1)
    ensures !pop ==> out.1.snapshots == r.snapshots && out.1.times == r.times
    ensures pop ==> out.0 == (|r.snapshots| >= 2)
    ensures pop && |r.snapshots| >= 1 ==> var n := |r.snapshots| - 1;
              && out.1.snapshots == r.snapshots[..n] && out.1.times == r.times[..n]
              && out.1.laterSnapshot == r.snapshots[n] && out.1.laterTime == r.times[n]
    ensures pop && |r.snapshots| == 0 ==> out.1 == r
    ensures out.0 ==> var n := out.1;
              && n.earlierSnapshot == n.snapshots[|n.snapshots| - 1] && n.earlierTime == n.times[|n.times| - 1]
    ensures !out.0 ==> out.1.earlierSnapshot == r.earlierSnapshot && out.1.earlierTime == r.earlierTime
    ensures out.1 == r.(snapshots := out.1.snapshots, times := out.1.times,
                        laterSnapshot := out.1.laterSnapshot, laterTime := out.1.laterTime,
                        earlierSnapshot := out.1.earlierSnapshot, earlierTime := out.1.earlierTime)
  {
    if pop && |r.snapshots| < 1 then (false, r)
    else
      var n := |r.snapshots| - 1;
      var popped := if pop then r.(laterSnapshot := r.snapshots[n], laterTime := r.times[n],
                                   snapshots := r.snapshots[..n], times := r.times[..n])
                    else r;
      if |popped.snapshots| < 1 then (false, popped)
      else
        var m := |popped.snapshots| - 1;
        (true, popped.(earlierSnapshot := popped.snapshots[m], earlierTime := popped.times[m]))
  }

  /** `lerp` stands for LerpSnapshots(from, to, t). */

  /** Rewind: when the earlier pair has been passed, pop to the next one; once the buffer is
      exhausted, apply the earlier snapshot exactly, stop rewinding and send OnExhaustRewind.
      Otherwise apply the interpolation between the later and the earlier snapshot. */
  function Rewind<S>(r: Recorder<S>, c: Clockwork, lerp: (S, S, Quotient) -> S): (out: Recorder<S>)
    requires Paired(r)
    ensures Paired(out)
    ensures !r.canRewind ==> out == r
    ensures r.canRewind ==> out.interpolatedSnapshot == out.live
    ensures |r.snapshots| - 1 <= |out.snapshots| <= |r.snapshots| && out.snapshots == r.snapshots[..|out.snapshots|]
    ensures r.canRewind && c.time > r.earlierTime ==>
              out == r.(interpolatedSnapshot := out.live, live := out.live)
              && out.live == lerp(r.laterSnapshot, r.earlierSnapshot, Divide(r.laterTime - c.time, r.laterTime - r.earlierTime))
    ensures r.canRewind && c.time <= r.earlierTime && |r.snapshots| >= 2 ==>
              && out.canRewind && |out.snapshots| == |r.snapshots| - 1
              && out.laterSnapshot == r.snapshots[|r.snapshots| - 1]
              && out.earlierSnapshot == r.snapshots[|r.snapshots| - 2]
              && out.live == lerp(out.laterSnapshot, out.earlierSnapshot, Divide(out.laterTime - c.time, out.laterTime - out.earlierTime))
              && out.messages == r.messages
    ensures r.canRewind && c.time <= r.earlierTime && |r.snapshots| < 2 ==>
              && !out.canRewind && |out.snapshots| == 0
              && out.live == r.earlierSnapshot && out.interpolatedSnapshot == r.earlierSnapshot
              && out.messages == r.messages + [OnExhaustRewind]
  {
    if !r.canRewind then r
    else
      var current := if c.time <= r.earlierTime then TryFindEarlierSnapshot(r, true) else (true, r);
      var n := current.1.(canRewind := current.0);
      if !current.0 then
        n.(interpolatedSnapshot := n.earlierSnapshot, live := n.earlierSnapshot, messages := n.messages + [OnExhaustRewind])
      else
        var t := Divide(n.laterTime - c.time, n.laterTime - n.earlierTime);
        var interpolated := lerp(n.laterSnapshot, n.earlierSnapshot, t);
        n.(interpolatedSnapshot := interpolated, live := interpolated)
  }

  /** Update: on the frame a rewind starts, the current state becomes the later snapshot
      (nothing is popped) and the newest entry the earlier one; then progress when time runs
      forward, rewind when it runs backward. The last scale is kept for the next frame. */
  function Update<S>(r: Recorder<S>, c: Clockwork, lerp: (S, S, Quotient) -> S): (out: Result<Recorder<S>>)
    requires Paired(r)
    ensures out.Ok? ==> out.value.lastTimeScale == c.timeScale && Paired(out.value)
    ensures out.Err? ==> c.timeScale > 0.0 && Progress(r, c).Err?
    ensures Bounded(r) ==> out.Ok? && Bounded(out.value)
    ensures c.timeScale == 0.0 ==> out == Ok(r.(lastTimeScale := 0.0))
    ensures c.timeScale > 0.0 ==> out == match Progress(r, c)
                                         case Ok(n) => Ok(n.(lastTimeScale := c.timeScale))
                                         case Err(e) => Err(e)
    ensures c.timeScale < 0.0 && r.lastTimeScale >= 0.0 ==>
              out == Ok(Rewind(StartRewind(r, c), c, lerp).(lastTimeScale := c.timeScale))
    ensures c.timeScale < 0.0 && r.lastTimeScale < 0.0 ==> out == Ok(Rewind(r, c, lerp).(lastTimeScale := c.timeScale))
  {
    var started := if r.lastTimeScale >= 0.0 && c.timeScale < 0.0 then StartRewind(r, c) else r;
    if c.timeScale > 0.0 then
      match Progress(started, c)
      case Ok(n) => Ok(n.(lastTimeScale := c.timeScale))
      case Err(e) => Err(e)
    else if c.timeScale < 0.0 then Ok(Rewind(started, c, lerp).(lastTimeScale := c.timeScale))
    else Ok(started.(lastTimeScale := c.timeScale))
  }

  /** The block of Update that runs on the frame a rewind starts. */
  function StartRewind<S>(r: Recorder<S>, c: Clockwork): (out: Recorder<S>)
    requires Paired(r)
    ensures Paired(out) && out.snapshots == r.snapshots && out.times == r.times
    ensures out.laterSnapshot == r.live && out.laterTime == c.time && out.interpolatedSnapshot == r.live
    ensures out.canRewind <==> |r.snapshots| >= 1
    ensures out.canRewind ==> out.earlierSnapshot == r.snapshots[|r.snapshots| - 1] && out.earlierTime == r.times[|r.times| - 1]
  {
    var later := r.(laterSnapshot := r.live, laterTime := c.time, interpolatedSnapshot := r.live);
    var found := TryFindEarlierSnapshot(later, false);
    found.1.(canRewind := found.0)
  }

  /** Exhaustion needs as many frames as there are entries: each frame of rewind pops at most
      one entry, and a rewinding recorder with an empty buffer can no longer rewind. */
  lemma {:induction false} RewindPopsAtMostOne<S>(r: Recorder<S>, cs: seq<Clockwork>, lerp: (S, S, Quotient) -> S)
    requires Paired(r)
    ensures |RewindAll(r, cs, lerp).snapshots| >= |r.snapshots| - |cs|
    decreases |cs|
  {
    if |cs| > 0 {
      var init := cs[..|cs| - 1];
      RewindPopsAtMostOne(r, init, lerp);
    }
  }

  /** A run of rewind frames. */
  function RewindAll<S>(r: Recorder<S>, cs: seq<Clockwork>, lerp: (S, S, Quotient) -> S): (out: Recorder<S>)
    requires Paired(r)
    ensures Paired(out)
    ensures |out.snapshots| <= |r.snapshots| && out.snapshots == r.snapshots[..|out.snapshots|]
    decreases |cs|
  {
    if |cs| == 0 then r
    else
      var mid := RewindAll(r, cs[..|cs| - 1], lerp);
      var out := Rewind(mid, cs[|cs| - 1], lerp);
      assert mid.snapshots[..|out.snapshots|] == r.snapshots[..|out.snapshots|];
      out
  }

  /** Recording into a buffer with room, then popping, gives the buffer back, with the
      recorded state and time as the later pair. */
  lemma RecordThenPop<S>(r: Recorder<S>, c: Clockwork)
    requires Bounded(r) && c.rewindable && |r.snapshots| < r.capacity
    ensures var popped := TryFindEarlierSnapshot(Record(r, c).value, true).1;
            && popped.snapshots == r.snapshots && popped.times == r.times
            && popped.laterSnapshot == r.live && popped.laterTime == c.time
  {
    var n := Record(r, c).value;
    assert n.snapshots == r.snapshots + [r.live] && n.times == r.times + [c.time];
    assert n.snapshots[..|n.snapshots| - 1] == r.snapshots;
    assert n.times[..|n.times| - 1] == r.times;
  }

  // ---------------------------------------------------------------------------------------
  // Reset and measures

  /** Reset: the last scale goes back to 1 first; then a duration shorter than the interval
      and a non-positive interval are rejected, in that order. Otherwise the buffer is
      cleared, sized to hold a duration's worth of intervals, and the current state recorded. */
  function Reset<S>(r: Recorder<S>, c: Clockwork): (out: Completion<Recorder<S>>)
    requires Paired(r)
    ensures out.state.lastTimeScale == 1.0 && Paired(out.state)
    ensures c.recordingDuration < c.recordingInterval ==> out == Threw(Chronos(DurationBelowInterval), r.(lastTimeScale := 1.0))
    ensures c.recordingDuration >= c.recordingInterval && c.recordingInterval <= 0.0 ==>
              out == Threw(Chronos(NonPositiveInterval), r.(lastTimeScale := 1.0))
    ensures out.Returned? <==> c.recordingDuration >= c.recordingInterval > 0.0
    ensures out.Returned? ==> var n := out.state;
              && Bounded(n) && n.capacity == CeilToInt(c.recordingDuration / c.recordingInterval)
              && n.recordingTimer == 0.0
              && (c.rewindable ==> n.snapshots == [r.live] && n.times == [c.time] && n.canRewind)
              && (!c.rewindable ==> n.snapshots == [] && n.times == [] && n.canRewind == r.canRewind)
  {
    var n := r.(lastTimeScale := 1.0);
    if c.recordingDuration < c.recordingInterval then Threw(Chronos(DurationBelowInterval), n)
    else if c.recordingInterval <= 0.0 then Threw(Chronos(NonPositiveInterval), n)
    else
      var capacity := CeilToInt(c.recordingDuration / c.recordingInterval);
      QuotientAtLeastOne(c.recordingDuration, c.recordingInterval);
      var cleared := n.(snapshots := [], times := [], capacity := capacity, recordingTimer := 0.0);
      Returned(Record(cleared, c).value)
  }

  lemma QuotientAtLeastOne(d: real, i: real)
    requires d >= i > 0.0
    ensures d / i >= 1.0
  {
    assert d / i * i == d;
  }

  /** availableRewindDuration: how far back the buffer reaches from now, 0 once exhausted. */
  function AvailableRewindDuration<S>(r: Recorder<S>, time: real): (d: real)
    ensures d >= 0.0
    ensures !r.canRewind || |r.times| == 0 ==> d == 0.0
    ensures r.canRewind && |r.times| > 0 && time >= r.times[0] ==> d == time - r.times[0]
  {
    if !r.canRewind || |r.times| == 0 then 0.0 else Max(0.0, time - r.times[0])
  }

  /** Right after Reset there is nothing to rewind yet. */
  lemma NothingToRewindAfterReset<S>(r: Recorder<S>, c: Clockwork)
    requires Paired(r)
    requires Reset(r, c).Returned?
    ensures AvailableRewindDuration(Reset(r, c).state, c.time) == 0.0
  {
  }

  /** ModifySnapshots: rewrite every snapshot with the modifier, given its time. */
  function ModifySnapshots<S>(r: Recorder<S>, modifier: (S, real) -> S): (out: Recorder<S>)
    requires Paired(r)
    ensures out == r.(snapshots := out.snapshots) && Paired(out)
    ensures forall i :: 0 <= i < |out.snapshots| ==> out.snapshots[i] == modifier(r.snapshots[i], r.times[i])
  {
    r.(snapshots := seq(|r.snapshots|, i requires 0 <= i < |r.snapshots| => modifier(r.snapshots[i], r.times[i])))
  }

  /** A power of two. */
  predicate IsPowerOfTwo(p: int)
    decreases if p < 0 then 0 else p
  {
    p == 1 || (p >= 2 && p % 2 == 0 && IsPowerOfTwo(p / 2))
  }

  /** The least power of two not below n (1 when n <= 1). */
  ghost predicate PowerOfTwoCeiling(p: int, n: int) {
    IsPowerOfTwo(p) && p >= n && (p == 1 || p / 2 < n)
  }

  /** There is only one such power of two. */
  lemma {:induction false} PowerOfTwoCeilingUnique(p: int, q: int, n: int)
    requires PowerOfTwoCeiling(p, n) && PowerOfTwoCeiling(q, n)
    ensures p == q
  {
    if p < q {
      PowerOfTwoStep(p, q);
    } else if q < p {
      PowerOfTwoStep(q, p);
    }
  }

  /** Of two different powers of two, the smaller is at most half the larger. */
  lemma {:induction false} PowerOfTwoStep(p: int, q: int)
    requires IsPowerOfTwo(p) && IsPowerOfTwo(q) && p < q
    ensures p <= q / 2
    decreases q
  {
    if p > 1 {
      PowerOfTwoStep(p / 2, q / 2);
    }
  }

  /** The static EstimateMemoryUsage: `duration / interval` snapshots of `structSize` bytes
      plus a backing array of pointers grown by doubling. Marshal.SizeOf and IntPtr.Size are
      parameters. */
  method EstimateMemoryUsage(duration: real, interval: real, structSize: int, pointerSize: int)
    returns (bytes: int)
    requires interval > 0.0
    ensures exists p :: PowerOfTwoCeiling(p, CeilToInt(duration / interval))
              && bytes == structSize * CeilToInt(duration / interval) + pointerSize * p
  {
    var structAmount := CeilToInt(duration / interval);
    var pointerAmount := 1;
    while pointerAmount < structAmount
      invariant IsPowerOfTwo(pointerAmount)
      invariant pointerAmount == 1 || pointerAmount / 2 < structAmount
      decreases structAmount - pointerAmount
    {
      pointerAmount := pointerAmount * 2;
      assert pointerAmount / 2 * 2 == pointerAmount;
    }
    bytes := structSize * structAmount + pointerSize * pointerAmount;
    assert PowerOfTwoCeiling(pointerAmount, structAmount);
  }
}
