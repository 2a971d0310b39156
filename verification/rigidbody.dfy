/** RigidbodyTimeline.cs with the snapshots of RigidbodyTimeline3D.cs and
    RigidbodyTimeline2D.cs: a recorder over a physics body that also rescales the body's
    velocities and drags whenever the time scale changes, freezes it on a pause and restores
    it on resume.

    A snapshot holds the pose (position and rotation; the type parameter `P`), the
    velocities and drags as the engine holds them, and the timeline's last positive time
    scale. Copying a snapshot reads all of these, so the recorder's current snapshot `live`
    is the body's whole state: its motion and the divisor of the next rescaling are read from
    it. Whether the body is moved by hand (isManual: kinematic) is read each frame and is a
    parameter. */
module Rigidbodies {
  import opened Wrappers
  import opened Mathf
  import opened Severities
  import Recorders

  /** The rigidbody's physics quantities as the engine sees them, with time effects applied. */
  datatype Motion = Motion(velocity: Vector3, angularVelocity: Vector3, drag: real, angularDrag: real)

  /** The Snapshot struct: pose, motion, and the last positive time scale when copied. */
  datatype Snapshot<P> = Snapshot(pose: P, motion: Motion, lastPositiveTimeScale: real)

  /** The component: its recorder (whose current snapshot is the body's state), the extra
      fields of RigidbodyTimeline, and how many times the body was woken up. */
  datatype Body<P> = Body(
    recorder: Recorders.Recorder<Snapshot<P>>,
    isReallyManual: bool,
    zeroSnapshot: Snapshot<P>,
    zeroTime: real,
    wakeUps: nat)

  /** The body's velocities and drags. */
  function MotionOf<P>(b: Body<P>): Motion {
    b.recorder.live.motion
  }

  /** The lastPositiveTimeScale field, the divisor of the next rescaling. */
  function Divisor<P>(b: Body<P>): real {
    b.recorder.live.lastPositiveTimeScale
  }

  /** Every snapshot the recorder holds or can apply carries a positive divisor. */
  predicate DivisorsPositive<P>(r: Recorders.Recorder<Snapshot<P>>) {
    && (forall i :: 0 <= i < |r.snapshots| ==> r.snapshots[i].lastPositiveTimeScale > 0.0)
    && r.live.lastPositiveTimeScale > 0.0
    && r.laterSnapshot.lastPositiveTimeScale > 0.0
    && r.earlierSnapshot.lastPositiveTimeScale > 0.0
    && r.interpolatedSnapshot.lastPositiveTimeScale > 0.0
  }

  /** What every frame keeps: snapshots paired with their times, and a positive divisor in
      every snapshot the body may come back to (the field starts at 1 and only ever takes
      positive scales or the divisors of snapshots). */
  predicate Valid<P>(b: Body<P>) {
    Recorders.Paired(b.recorder) && DivisorsPositive(b.recorder) && b.zeroSnapshot.lastPositiveTimeScale > 0.0
  }

  /** Interpolating between two snapshots with positive divisors gives a positive divisor,
      as Mathf.Lerp does for the factors it clamps to [0, 1]. */
  ghost predicate LerpKeepsDivisor<P(!new)>(lerp: (Snapshot<P>, Snapshot<P>, Quotient) -> Snapshot<P>) {
    forall x: Snapshot<P>, y: Snapshot<P>, t: Quotient ::
      x.lastPositiveTimeScale > 0.0 && y.lastPositiveTimeScale > 0.0 ==> lerp(x, y, t).lastPositiveTimeScale > 0.0
  }

  /** A snapshot modifier that leaves positive divisors positive. */
  ghost predicate ModifierKeepsDivisor<P(!new)>(modifier: (Snapshot<P>, real) -> Snapshot<P>) {
    forall x: Snapshot<P>, time: real :: x.lastPositiveTimeScale > 0.0 ==> modifier(x, time).lastPositiveTimeScale > 0.0
  }

  /** The constructor: a fresh recorder over the body's state, last positive scale 1. */
  function NewBody<P>(pose: P, motion: Motion, isManual: bool): (b: Body<P>)
    ensures Valid(b) && Divisor(b) == 1.0
    ensures b.recorder.live.pose == pose && MotionOf(b) == motion
    ensures b.recorder.snapshots == [] && b.recorder.lastTimeScale == 1.0 && b.isReallyManual == isManual
  {
    var live := Snapshot(pose, motion, 1.0);
    Body(Recorders.NewRecorder(live), isManual, live, 0.0, 0)
  }

  /** Every velocity and drag multiplied by the same factor. */
  function ScaleMotion(m: Motion, k: real): Motion {
    Motion(Scale(m.velocity, k), Scale(m.angularVelocity, k), m.drag * k, m.angularDrag * k)
  }

  /** ApplySnapshot: the pose, both drags and the divisor come from the snapshot; so do the
      velocities while time runs forward, but a paused or rewinding body keeps its own. */
  function ApplySnapshot<P>(live: Snapshot<P>, s: Snapshot<P>, timeScale: real): (r: Snapshot<P>)
    ensures r.pose == s.pose && r.lastPositiveTimeScale == s.lastPositiveTimeScale
    ensures r.motion.drag == s.motion.drag && r.motion.angularDrag == s.motion.angularDrag
    ensures timeScale > 0.0 ==> r == s
    ensures timeScale <= 0.0 ==> r.motion.velocity == live.motion.velocity && r.motion.angularVelocity == live.motion.angularVelocity
  {
    if timeScale > 0.0 then s
    else s.(motion := s.motion.(velocity := live.motion.velocity, angularVelocity := live.motion.angularVelocity))
  }

  /** Applying a snapshot and copying the state back gives the snapshot while time runs
      forward; at any scale, applying the body's own state changes nothing, and applying the
      same snapshot twice is applying it once. */
  lemma ApplySnapshotCopies<P>(live: Snapshot<P>, s: Snapshot<P>, timeScale: real)
    ensures ApplySnapshot(live, live, timeScale) == live
    ensures ApplySnapshot(ApplySnapshot(live, s, timeScale), s, timeScale) == ApplySnapshot(live, s, timeScale)
    ensures ApplySnapshot(live, s, timeScale) == s <==>
              timeScale > 0.0 || (s.motion.velocity == live.motion.velocity && s.motion.angularVelocity == live.motion.angularVelocity)
  {
  }

  // ---------------------------------------------------------------------------------------
  // The frame update, in the order of its four blocks

  /** Arriving at a halt: remember the state to come back to (the current one when coming
      from forward time, the interpolated one when coming from a rewind) and the time. */
  function Halt<P>(b: Body<P>, c: Recorders.Clockwork): (out: Body<P>)
    ensures out == b.(zeroSnapshot := out.zeroSnapshot, zeroTime := out.zeroTime)
    ensures b.recorder.lastTimeScale != 0.0 && c.timeScale == 0.0 ==> out.zeroTime == c.time
    ensures b.recorder.lastTimeScale > 0.0 && c.timeScale == 0.0 ==> out.zeroSnapshot == b.recorder.live
    ensures b.recorder.lastTimeScale < 0.0 && c.timeScale == 0.0 && c.rewindable ==>
              out.zeroSnapshot == b.recorder.interpolatedSnapshot
    ensures !(b.recorder.lastTimeScale != 0.0 && c.timeScale == 0.0) ==> out == b
    ensures b.recorder.lastTimeScale < 0.0 && !c.rewindable ==> out.zeroSnapshot == b.zeroSnapshot
  {
    var last := b.recorder.lastTimeScale;
    if last != 0.0 && c.timeScale == 0.0 then
      var zero := if last > 0.0 then b.recorder.live
                  else if last < 0.0 && c.rewindable then b.recorder.interpolatedSnapshot
                  else b.zeroSnapshot;
      b.(zeroSnapshot := zero, zeroTime := c.time)
    else b
  }

  /** The state a body has once time starts running forward again after a pause or a
      rewind: the snapshot captured at the halt, the last interpolated one, or (a rewind on a
      timeline that cannot rewind applies nothing) its own. */
  function ResumeSnapshot<P>(b: Body<P>, c: Recorders.Clockwork): Snapshot<P> {
    if b.recorder.lastTimeScale == 0.0 then b.zeroSnapshot
    else if b.recorder.lastTimeScale < 0.0 && c.rewindable then b.recorder.interpolatedSnapshot
    else b.recorder.live
  }

  /** Starting a pause or a rewind takes the body out of the physics engine's hands (and, for
      a rewind, sets up the later and earlier snapshots); stopping one gives it back, applies
      the state to resume from, wakes the body and records. Recording can throw only before
      the first Reset. */
  function Transition<P>(b: Body<P>, c: Recorders.Clockwork, isManual: bool): (out: Completion<Body<P>>)
    requires Valid(b)
    ensures Valid(out.state)
    ensures out.state.zeroSnapshot == b.zeroSnapshot && out.state.zeroTime == b.zeroTime
    ensures out.state.recorder.lastTimeScale == b.recorder.lastTimeScale
    ensures b.recorder.lastTimeScale >= 0.0 && c.timeScale <= 0.0 ==>
              && out.Returned? && out.state.isReallyManual
              && (c.timeScale == 0.0 ==> out.state == b.(isReallyManual := true))
              && (c.timeScale < 0.0 ==> out.state == b.(isReallyManual := true, recorder := Recorders.StartRewind(b.recorder, c)))
    ensures b.recorder.lastTimeScale <= 0.0 && c.timeScale > 0.0 ==>
              && out.state.isReallyManual == isManual && out.state.wakeUps == b.wakeUps + 1
              && out.state.recorder.live == ResumeSnapshot(b, c)
              && var applied := b.recorder.(live := ResumeSnapshot(b, c));
                 && (out.Threw? <==> Recorders.Record(applied, c).Err?)
                 && (out.Returned? ==> out.state.recorder == Recorders.Record(applied, c).value)
                 && (out.Threw? ==> out.state.recorder == applied)
    ensures !(b.recorder.lastTimeScale <= 0.0 && c.timeScale > 0.0) ==> out.state.recorder.live == b.recorder.live
    ensures !(b.recorder.lastTimeScale >= 0.0 && c.timeScale <= 0.0) && !(b.recorder.lastTimeScale <= 0.0 && c.timeScale > 0.0) ==>
              out == Returned(b)
  {
    var last := b.recorder.lastTimeScale;
    if last >= 0.0 && c.timeScale <= 0.0 then
      var recorder := if c.timeScale < 0.0 then Recorders.StartRewind(b.recorder, c) else b.recorder;
      StartRewindKeepsDivisors(b.recorder, c);
      Returned(b.(recorder := recorder, isReallyManual := true))
    else if last <= 0.0 && c.timeScale > 0.0 then
      var live := b.recorder.live;
      var resumed := if last == 0.0 then ApplySnapshot(live, b.zeroSnapshot, c.timeScale)
                     else if c.rewindable then ApplySnapshot(live, b.recorder.interpolatedSnapshot, c.timeScale)
                     else live;
      var woken := b.(isReallyManual := isManual, recorder := b.recorder.(live := resumed), wakeUps := b.wakeUps + 1);
      RecordKeepsDivisors(woken.recorder, c);
      match Recorders.Record(woken.recorder, c)
      case Ok(n) => Returned(woken.(recorder := n))
      case Err(e) => Threw(e, woken)
    else Returned(b)
  }

  /** Whether a frame rescales the motion: a positive scale that differs from the last one,
      on a body the engine moves (as set by the transition of the same frame). */
  predicate Retunes<P>(b: Body<P>, c: Recorders.Clockwork, isManual: bool) {
    var manual := if b.recorder.lastTimeScale <= 0.0 && c.timeScale > 0.0 then isManual else b.isReallyManual;
    c.timeScale > 0.0 && c.timeScale != b.recorder.lastTimeScale && !manual
  }

  /** Slowing down or speeding up a body the engine moves: every velocity and drag is
      multiplied by the ratio of the new scale to the last positive one, and the body woken. */
  function Retune<P>(b: Body<P>, c: Recorders.Clockwork): (out: Body<P>)
    requires Valid(b)
    ensures Valid(out)
    ensures c.timeScale > 0.0 && c.timeScale != b.recorder.lastTimeScale && !b.isReallyManual ==>
              && out.recorder == b.recorder.(live := b.recorder.live.(motion := ScaleMotion(MotionOf(b), c.timeScale / Divisor(b))))
              && out == b.(recorder := out.recorder, wakeUps := b.wakeUps + 1)
    ensures !(c.timeScale > 0.0 && c.timeScale != b.recorder.lastTimeScale && !b.isReallyManual) ==> out == b
  {
    if c.timeScale > 0.0 && c.timeScale != b.recorder.lastTimeScale && !b.isReallyManual then
      var live := b.recorder.live.(motion := ScaleMotion(MotionOf(b), c.timeScale / Divisor(b)));
      b.(recorder := b.recorder.(live := live), wakeUps := b.wakeUps + 1)
    else b
  }

  /** Running forward hands the body back to the engine and lets the recorder progress, and
      the scale becomes the divisor of the next rescaling; running backward rewinds, applying
      each interpolated snapshot over the body's velocities; either way the scale is
      remembered. */
  function Run<P(!new)>(b: Body<P>, c: Recorders.Clockwork, isManual: bool, lerp: (Snapshot<P>, Snapshot<P>, Quotient) -> Snapshot<P>): (out: Completion<Body<P>>)
    requires Valid(b)
    ensures Recorders.Paired(out.state.recorder)
    ensures c.timeScale >= 0.0 || LerpKeepsDivisor(lerp) ==> Valid(out.state)
    ensures out.Threw? ==> c.timeScale > 0.0 && Recorders.Progress(b.recorder, c).Err? && out.state.recorder == b.recorder
    ensures out.Returned? ==> out.state.recorder.lastTimeScale == c.timeScale
    ensures out.Returned? && c.timeScale > 0.0 ==>
              && out.state.recorder.live == b.recorder.live.(lastPositiveTimeScale := c.timeScale)
              && Recorders.Progress(b.recorder, c).Ok?
              && out.state.recorder == Recorders.Progress(b.recorder, c).value.(live := out.state.recorder.live, lastTimeScale := c.timeScale)
    ensures out.state.zeroSnapshot == b.zeroSnapshot && out.state.zeroTime == b.zeroTime && out.state.wakeUps == b.wakeUps
    ensures c.timeScale > 0.0 ==> out.state.isReallyManual == isManual
    ensures c.timeScale <= 0.0 ==> out.state.isReallyManual == b.isReallyManual
    ensures c.timeScale == 0.0 ==> out == Returned(b.(recorder := b.recorder.(lastTimeScale := 0.0)))
    ensures c.timeScale < 0.0 ==>
              && out.Returned?
              && var n := out.state.recorder;
                 && n == Recorders.Rewind(b.recorder, c, lerp).(live := n.live, lastTimeScale := c.timeScale)
                 && n.live.motion.velocity == MotionOf(b).velocity && n.live.motion.angularVelocity == MotionOf(b).angularVelocity
                 && (b.recorder.canRewind ==> n.live == ApplySnapshot(b.recorder.live, n.interpolatedSnapshot, c.timeScale))
                 && (!b.recorder.canRewind ==> n.live == b.recorder.live)
    ensures Recorders.Bounded(b.recorder) ==> out.Returned? && Recorders.Bounded(out.state.recorder)
  {
    if c.timeScale > 0.0 then
      var handed := b.(isReallyManual := isManual);
      ProgressKeepsDivisors(b.recorder, c);
      match Recorders.Progress(b.recorder, c)
      case Err(e) => Threw(e, handed)
      case Ok(n) =>
        var live := n.live.(lastPositiveTimeScale := c.timeScale);
        Returned(handed.(recorder := n.(live := live, lastTimeScale := c.timeScale)))
    else if c.timeScale < 0.0 then
      var rewound := Recorders.Rewind(b.recorder, c, lerp);
      RewindKeepsDivisors(b.recorder, c, lerp);
      var live := if b.recorder.canRewind then ApplySnapshot(b.recorder.live, rewound.live, c.timeScale) else b.recorder.live;
      Returned(b.(recorder := rewound.(live := live, lastTimeScale := c.timeScale)))
    else
      Returned(b.(recorder := b.recorder.(lastTimeScale := 0.0)))
  }

  /** Update: halt, transition, retune and run, in that order. An exception from recording
      leaves the fields the earlier blocks already changed. */
  function Update<P(!new)>(b: Body<P>, c: Recorders.Clockwork, isManual: bool, lerp: (Snapshot<P>, Snapshot<P>, Quotient) -> Snapshot<P>): (out: Completion<Body<P>>)
    requires Valid(b)
    ensures Recorders.Paired(out.state.recorder)
    ensures c.timeScale >= 0.0 || LerpKeepsDivisor(lerp) ==> Valid(out.state)
  {
    var halted := Halt(b, c);
    match Transition(halted, c, isManual)
    case Threw(e, s) => Threw(e, s)
    case Returned(moved) =>
      Run(Retune(moved, c), c, isManual, lerp)
  }

  /** What one frame promises: the scale is remembered, and a positive one becomes the
      divisor; a halt captures the state to come back to and its time; pausing or rewinding
      takes the body from the engine; a pause leaves the body's state alone; a rewind applies
      the interpolated snapshot (pose, drags, divisor) over the body's own velocities; and only
      recording before the first Reset can throw. */
  lemma UpdateFrame<P(!new)>(b: Body<P>, c: Recorders.Clockwork, isManual: bool, lerp: (Snapshot<P>, Snapshot<P>, Quotient) -> Snapshot<P>)
    requires Valid(b)
    ensures var out := Update(b, c, isManual, lerp);
            var last := b.recorder.lastTimeScale;
            var ts := c.timeScale;
            && (out.Returned? ==> out.state.recorder.lastTimeScale == ts)
            && (out.Returned? && ts > 0.0 ==> Divisor(out.state) == ts)
            && (last != 0.0 && ts == 0.0 ==> out.state.zeroTime == c.time)
            && (last > 0.0 && ts == 0.0 ==> out.state.zeroSnapshot == b.recorder.live)
            && (last < 0.0 && ts == 0.0 && c.rewindable ==> out.state.zeroSnapshot == b.recorder.interpolatedSnapshot)
            && (!(last != 0.0 && ts == 0.0) ==> out.state.zeroSnapshot == b.zeroSnapshot && out.state.zeroTime == b.zeroTime)
            && (last >= 0.0 && ts <= 0.0 ==> out.Returned? && out.state.isReallyManual)
            && (ts == 0.0 ==> out.state.recorder.live == b.recorder.live && out.state.recorder.snapshots == b.recorder.snapshots)
            && (ts < 0.0 ==> MotionOf(out.state).velocity == MotionOf(b).velocity
                             && MotionOf(out.state).angularVelocity == MotionOf(b).angularVelocity)
            && (ts < 0.0 && (last >= 0.0 || b.recorder.canRewind) ==>
                  out.state.recorder.live == ApplySnapshot(b.recorder.live, out.state.recorder.interpolatedSnapshot, ts))
            && (ts > 0.0 ==> out.state.isReallyManual == isManual)
            && (out.Threw? ==> ts > 0.0 && c.rewindable && b.recorder.capacity == 0 && b.recorder.snapshots == [])
            && (Recorders.Bounded(b.recorder) ==> out.Returned? && Recorders.Bounded(out.state.recorder))
  {
    FrameHalts(b, c, isManual, lerp);
    if c.timeScale < 0.0 {
      FrameRewinds(b, c, isManual, lerp);
    } else if c.timeScale > 0.0 {
      FrameRuns(b, c, isManual, lerp);
    }
  }

  /** The fields a halt sets, and a frame that pauses or rewinds. */
  lemma FrameHalts<P(!new)>(b: Body<P>, c: Recorders.Clockwork, isManual: bool, lerp: (Snapshot<P>, Snapshot<P>, Quotient) -> Snapshot<P>)
    requires Valid(b)
    ensures var out := Update(b, c, isManual, lerp);
            var last := b.recorder.lastTimeScale;
            var ts := c.timeScale;
            && (last != 0.0 && ts == 0.0 ==> out.state.zeroTime == c.time)
            && (last > 0.0 && ts == 0.0 ==> out.state.zeroSnapshot == b.recorder.live)
            && (last < 0.0 && ts == 0.0 && c.rewindable ==> out.state.zeroSnapshot == b.recorder.interpolatedSnapshot)
            && (!(last != 0.0 && ts == 0.0) ==> out.state.zeroSnapshot == b.zeroSnapshot && out.state.zeroTime == b.zeroTime)
            && (last >= 0.0 && ts <= 0.0 ==> out.Returned? && out.state.isReallyManual)
            && (ts == 0.0 ==> && out == Returned(out.state)
                              && out.state.recorder.lastTimeScale == 0.0
                              && out.state.recorder.live == b.recorder.live
                              && out.state.recorder.snapshots == b.recorder.snapshots)
  {
  }

  /** A frame that runs backward: velocities kept, the interpolated snapshot applied. */
  lemma FrameRewinds<P(!new)>(b: Body<P>, c: Recorders.Clockwork, isManual: bool, lerp: (Snapshot<P>, Snapshot<P>, Quotient) -> Snapshot<P>)
    requires Valid(b) && c.timeScale < 0.0
    ensures var out := Update(b, c, isManual, lerp);
            && out.Returned? && out.state.recorder.lastTimeScale == c.timeScale
            && MotionOf(out.state).velocity == MotionOf(b).velocity
            && MotionOf(out.state).angularVelocity == MotionOf(b).angularVelocity
            && (b.recorder.lastTimeScale >= 0.0 || b.recorder.canRewind ==>
                  out.state.recorder.live == ApplySnapshot(b.recorder.live, out.state.recorder.interpolatedSnapshot, c.timeScale))
            && (Recorders.Bounded(b.recorder) ==> Recorders.Bounded(out.state.recorder))
  {
    var moved := Transition(Halt(b, c), c, isManual);
    assert Retune(moved.state, c) == moved.state;
    if b.recorder.lastTimeScale >= 0.0 && !moved.state.recorder.canRewind {
      assert moved.state.recorder.interpolatedSnapshot == b.recorder.live;
    }
  }

  /** A frame that runs forward: the divisor becomes the scale, and only recording before the
      first Reset can throw. */
  lemma FrameRuns<P(!new)>(b: Body<P>, c: Recorders.Clockwork, isManual: bool, lerp: (Snapshot<P>, Snapshot<P>, Quotient) -> Snapshot<P>)
    requires Valid(b) && c.timeScale > 0.0
    ensures var out := Update(b, c, isManual, lerp);
            && (out.Returned? ==> out.state.recorder.lastTimeScale == c.timeScale && Divisor(out.state) == c.timeScale)
            && out.state.isReallyManual == isManual
            && (out.Threw? ==> c.rewindable && b.recorder.capacity == 0 && b.recorder.snapshots == [])
            && (Recorders.Bounded(b.recorder) ==> out.Returned? && Recorders.Bounded(out.state.recorder))
  {
    var moved := Transition(Halt(b, c), c, isManual);
    if moved.Returned? {
      var tuned := Retune(moved.state, c);
      assert tuned.recorder == moved.state.recorder.(live := tuned.recorder.live);
    }
  }

  /** Resuming: the body takes the state captured at the halt (after a pause) or the last
      interpolated one (after a rewind) — its pose, velocities, drags and divisor — which an
      engine-driven body then rescales from that divisor to the new scale. On a rewindable
      timeline that state is recorded; if the recording interval has also elapsed, the
      rescaled state is recorded after it. */
  lemma ResumeAppliesAndRecords<P(!new)>(b: Body<P>, c: Recorders.Clockwork, isManual: bool, lerp: (Snapshot<P>, Snapshot<P>, Quotient) -> Snapshot<P>)
    requires Valid(b) && Recorders.Bounded(b.recorder)
    requires b.recorder.lastTimeScale <= 0.0 && c.timeScale > 0.0
    ensures var out := Update(b, c, isManual, lerp);
            var resumed := ResumeSnapshot(b, c);
            && out.Returned?
            && out.state.recorder.live.pose == resumed.pose && Divisor(out.state) == c.timeScale
            && MotionOf(out.state) == (if isManual then resumed.motion
                                       else ScaleMotion(resumed.motion, c.timeScale / resumed.lastPositiveTimeScale))
            && (c.rewindable ==> var s := out.state.recorder.snapshots;
                                 && |s| > 0
                                 && s[|s| - 1] == if b.recorder.recordingTimer < c.recordingInterval then resumed
                                                  else resumed.(motion := MotionOf(out.state)))
  {
    TransitionRecordsResume(b, c, isManual);
    var moved := Transition(b, c, isManual).state;
    var tuned := Retune(moved, c);
    ProgressNewest(tuned.recorder, c);
    UpdateAfterResume(b, c, isManual, lerp);
  }

  /** After a resume that recorded, the frame is the retune and run of the moved body. */
  lemma UpdateAfterResume<P(!new)>(b: Body<P>, c: Recorders.Clockwork, isManual: bool, lerp: (Snapshot<P>, Snapshot<P>, Quotient) -> Snapshot<P>)
    requires Valid(b) && b.recorder.lastTimeScale <= 0.0 && c.timeScale > 0.0
    requires Transition(b, c, isManual).Returned?
    ensures Update(b, c, isManual, lerp) == Run(Retune(Transition(b, c, isManual).state, c), c, isManual, lerp)
  {
    assert Halt(b, c) == b;
  }

  /** The resume transition applies the state to resume from and, on a rewindable timeline,
      records it as the newest snapshot; the recording timer is left alone. */
  lemma TransitionRecordsResume<P>(b: Body<P>, c: Recorders.Clockwork, isManual: bool)
    requires Valid(b) && Recorders.Bounded(b.recorder)
    requires b.recorder.lastTimeScale <= 0.0 && c.timeScale > 0.0
    ensures var moved := Transition(b, c, isManual);
            && moved.Returned? && Recorders.Bounded(moved.state.recorder)
            && moved.state.recorder.live == ResumeSnapshot(b, c)
            && moved.state.recorder.recordingTimer == b.recorder.recordingTimer
            && (c.rewindable ==> var s := moved.state.recorder.snapshots;
                                 |s| > 0 && s[|s| - 1] == ResumeSnapshot(b, c))
  {
    var applied := b.recorder.(live := ResumeSnapshot(b, c));
    var recorded := Recorders.Record(applied, c);
    assert recorded.Ok? && Recorders.Bounded(recorded.value) && recorded.value.live == ResumeSnapshot(b, c);
  }

  /** Progress leaves the current state alone; once the interval has elapsed it records that
      state as the newest snapshot, and before that it records nothing. */
  lemma ProgressNewest<S>(r: Recorders.Recorder<S>, c: Recorders.Clockwork)
    requires Recorders.Bounded(r)
    ensures var p := Recorders.Progress(r, c);
            && p.Ok? && p.value.live == r.live
            && (c.rewindable && r.recordingTimer >= c.recordingInterval ==>
                  var s := p.value.snapshots; |s| > 0 && s[|s| - 1] == r.live)
            && (r.recordingTimer < c.recordingInterval ==> p.value.snapshots == r.snapshots)
  {
  }

  /** The state a frame's rescaling starts from: the one resumed to on a resume frame, the
      body's own otherwise. */
  function BeforeRetune<P>(b: Body<P>, c: Recorders.Clockwork): Snapshot<P> {
    if b.recorder.lastTimeScale <= 0.0 && c.timeScale > 0.0 then ResumeSnapshot(b, c) else b.recorder.live
  }

  /** The rescaling: both directions. On a frame where a positive scale differs from the last
      one and the body is not kinematic, the motion is multiplied by the ratio of the new scale
      to the divisor of the state the frame starts from (after any resume); on every other
      frame that runs forward or pauses, the motion is that state's. */
  lemma RetuneScalesMotion<P(!new)>(b: Body<P>, c: Recorders.Clockwork, isManual: bool, lerp: (Snapshot<P>, Snapshot<P>, Quotient) -> Snapshot<P>)
    requires Valid(b)
    ensures var out := Update(b, c, isManual, lerp);
            var before := BeforeRetune(b, c);
            && (Retunes(b, c, isManual) && out.Returned? ==>
                  MotionOf(out.state) == ScaleMotion(before.motion, c.timeScale / before.lastPositiveTimeScale))
            && (!Retunes(b, c, isManual) && c.timeScale >= 0.0 ==> MotionOf(out.state) == before.motion)
  {
  }

  /** Going from a steady scale `a` to `k` and back to `a` on an engine-driven body gives
      back exactly the velocities and drags it started with, and the divisor `a`. */
  lemma SpeedChangeRoundTrip<P(!new)>(b: Body<P>, c1: Recorders.Clockwork, c2: Recorders.Clockwork, lerp: (Snapshot<P>, Snapshot<P>, Quotient) -> Snapshot<P>)
    requires Valid(b) && Recorders.Bounded(b.recorder)
    requires b.recorder.lastTimeScale == Divisor(b) && !b.isReallyManual
    requires c1.timeScale > 0.0 && c2.timeScale == Divisor(b)
    ensures Update(b, c1, false, lerp).Returned?
    ensures var back := Update(Update(b, c1, false, lerp).state, c2, false, lerp);
            back.Returned? && MotionOf(back.state) == MotionOf(b) && Divisor(back.state) == Divisor(b)
  {
    var a := Divisor(b);
    var k := c1.timeScale;
    UpdateFrame(b, c1, false, lerp);
    RetuneScalesMotion(b, c1, false, lerp);
    var mid := Update(b, c1, false, lerp).state;
    UpdateFrame(mid, c2, false, lerp);
    RetuneScalesMotion(mid, c2, false, lerp);
    if k != a {
      RatioInverse(a, k);
      ScaleMotionCompose(MotionOf(b), k / a, a / k);
    }
  }

  lemma RatioInverse(a: real, k: real)
    requires a > 0.0 && k > 0.0
    ensures (k / a) * (a / k) == 1.0
  {
  }

  lemma ScaleMotionCompose(m: Motion, p: real, q: real)
    requires p * q == 1.0
    ensures ScaleMotion(ScaleMotion(m, p), q) == m
  {
    UndoScaleVector(m.velocity, p, q);
    UndoScaleVector(m.angularVelocity, p, q);
    UndoScale(m.drag, p, q);
    UndoScale(m.angularDrag, p, q);
  }

  /** A pause resumed: the body comes back to the pose it halted at, with the motion it had
      rescaled from its divisor then to the new scale; resumed at the scale it had, it comes
      back to exactly the state it halted in. */
  lemma PauseThenResumeRestores<P(!new)>(b: Body<P>, c1: Recorders.Clockwork, c2: Recorders.Clockwork, isManual: bool, lerp: (Snapshot<P>, Snapshot<P>, Quotient) -> Snapshot<P>)
    requires Valid(b) && Recorders.Bounded(b.recorder)
    requires b.recorder.lastTimeScale > 0.0 && c1.timeScale == 0.0 && c2.timeScale > 0.0
    ensures Update(b, c1, isManual, lerp).Returned?
    ensures var resumed := Update(Update(b, c1, isManual, lerp).state, c2, isManual, lerp);
            var halted := b.recorder.live;
            && resumed.Returned?
            && resumed.state.recorder.live.pose == halted.pose && Divisor(resumed.state) == c2.timeScale
            && MotionOf(resumed.state) == (if isManual then halted.motion
                                           else ScaleMotion(halted.motion, c2.timeScale / halted.lastPositiveTimeScale))
            && (c2.timeScale == Divisor(b) ==> resumed.state.recorder.live == halted)
  {
    UpdateFrame(b, c1, isManual, lerp);
    var paused := Update(b, c1, isManual, lerp).state;
    ResumeAppliesAndRecords(paused, c2, isManual, lerp);
    ScaleMotionOne(b.recorder.live.motion, c2.timeScale);
  }

  lemma ScaleMotionOne(m: Motion, k: real)
    requires k != 0.0
    ensures ScaleMotion(m, k / k) == m
  {
    assert k / k == 1.0;
  }

  // ---------------------------------------------------------------------------------------
  // Positive divisors: what recording, rewinding and resetting keep

  lemma RecordKeepsDivisors<P>(r: Recorders.Recorder<Snapshot<P>>, c: Recorders.Clockwork)
    requires Recorders.Paired(r) && DivisorsPositive(r)
    ensures Recorders.Record(r, c).Ok? ==> DivisorsPositive(Recorders.Record(r, c).value)
  {
  }

  lemma ProgressKeepsDivisors<P>(r: Recorders.Recorder<Snapshot<P>>, c: Recorders.Clockwork)
    requires Recorders.Paired(r) && DivisorsPositive(r)
    ensures Recorders.Progress(r, c).Ok? ==> DivisorsPositive(Recorders.Progress(r, c).value)
  {
    RecordKeepsDivisors(r, c);
  }

  lemma StartRewindKeepsDivisors<P>(r: Recorders.Recorder<Snapshot<P>>, c: Recorders.Clockwork)
    requires Recorders.Paired(r) && DivisorsPositive(r)
    ensures DivisorsPositive(Recorders.StartRewind(r, c))
  {
  }

  lemma RewindKeepsDivisors<P(!new)>(r: Recorders.Recorder<Snapshot<P>>, c: Recorders.Clockwork, lerp: (Snapshot<P>, Snapshot<P>, Quotient) -> Snapshot<P>)
    requires Recorders.Paired(r) && DivisorsPositive(r)
    ensures LerpKeepsDivisor(lerp) ==> DivisorsPositive(Recorders.Rewind(r, c, lerp))
  {
  }

  lemma ResetKeepsDivisors<P>(r: Recorders.Recorder<Snapshot<P>>, c: Recorders.Clockwork)
    requires Recorders.Paired(r) && DivisorsPositive(r)
    ensures DivisorsPositive(Recorders.Reset(r, c).state)
  {
  }

  // ---------------------------------------------------------------------------------------
  // Reset, snapshots and the public properties

  /** Reset: the divisor goes back to 1 first, so the snapshot the reset records carries 1;
      then the recorder resets. */
  function Reset<P>(b: Body<P>, c: Recorders.Clockwork): (out: Completion<Body<P>>)
    requires Valid(b)
    ensures Valid(out.state) && Divisor(out.state) == 1.0
    ensures out.Returned? <==> c.recordingDuration >= c.recordingInterval > 0.0
    ensures out.Threw? ==> out.error == Recorders.Reset(b.recorder, c).error
    ensures out.state.recorder.live == b.recorder.live.(lastPositiveTimeScale := 1.0)
    ensures out.Returned? && c.rewindable ==> out.state.recorder.snapshots == [b.recorder.live.(lastPositiveTimeScale := 1.0)]
    ensures out.state == b.(recorder := out.state.recorder)
  {
    var divided := b.recorder.(live := b.recorder.live.(lastPositiveTimeScale := 1.0));
    ResetKeepsDivisors(divided, c);
    match Recorders.Reset(divided, c)
    case Returned(r) => Returned(b.(recorder := r))
    case Threw(e, r) => Threw(e, b.(recorder := r))
  }

  /** ModifySnapshots: the recorded snapshots and the one captured at the halt alike. */
  function ModifySnapshots<P(!new)>(b: Body<P>, modifier: (Snapshot<P>, real) -> Snapshot<P>): (out: Body<P>)
    requires Valid(b)
    ensures Recorders.Paired(out.recorder)
    ensures ModifierKeepsDivisor(modifier) ==> Valid(out)
    ensures out == b.(recorder := Recorders.ModifySnapshots(b.recorder, modifier), zeroSnapshot := out.zeroSnapshot)
    ensures out.zeroSnapshot == modifier(b.zeroSnapshot, b.zeroTime)
  {
    ModifyKeepsDivisors(b.recorder, modifier);
    b.(recorder := Recorders.ModifySnapshots(b.recorder, modifier), zeroSnapshot := modifier(b.zeroSnapshot, b.zeroTime))
  }

  lemma ModifyKeepsDivisors<P(!new)>(r: Recorders.Recorder<Snapshot<P>>, modifier: (Snapshot<P>, real) -> Snapshot<P>)
    requires Recorders.Paired(r) && DivisorsPositive(r)
    ensures ModifierKeepsDivisor(modifier) ==> DivisorsPositive(Recorders.ModifySnapshots(r, modifier))
  {
    if ModifierKeepsDivisor(modifier) {
      var n := Recorders.ModifySnapshots(r, modifier);
      forall i | 0 <= i < |n.snapshots|
        ensures n.snapshots[i].lastPositiveTimeScale > 0.0
      {
        var x, time := r.snapshots[i], r.times[i];
        assert x.lastPositiveTimeScale > 0.0;
        assert modifier(x, time).lastPositiveTimeScale > 0.0;
        assert n.snapshots[i] == modifier(x, time);
      }
    }
  }

  /** The drag setter: stored with time effects applied, and only while time runs forward. */
  function SetDrag(m: Motion, value: real, timeScale: real): (out: Motion)
    ensures timeScale <= 0.0 ==> out == m
    ensures out == m.(drag := out.drag)
  {
    if AssertForward(timeScale, Warn) == Ok(true) then m.(drag := value * timeScale) else m
  }

  /** The angular drag setter, alike. */
  function SetAngularDrag(m: Motion, value: real, timeScale: real): (out: Motion)
    ensures timeScale <= 0.0 ==> out == m
    ensures out == m.(angularDrag := out.angularDrag)
  {
    if AssertForward(timeScale, Warn) == Ok(true) then m.(angularDrag := value * timeScale) else m
  }

  /** The drag getter: time effects removed by a single-precision division. */
  function Drag(m: Motion, timeScale: real): (q: Quotient)
    ensures q.Finite? <==> timeScale != 0.0
  {
    Divide(m.drag, timeScale)
  }

  function AngularDrag(m: Motion, timeScale: real): (q: Quotient)
    ensures q.Finite? <==> timeScale != 0.0
  {
    Divide(m.angularDrag, timeScale)
  }

  /** While time runs forward, reading a drag gives back what was set; the setters never
      throw, whatever the scale. */
  lemma DragRoundTrip(m: Motion, value: real, timeScale: real)
    requires timeScale > 0.0
    ensures Drag(SetDrag(m, value, timeScale), timeScale) == Finite(value)
    ensures AngularDrag(SetAngularDrag(m, value, timeScale), timeScale) == Finite(value)
    ensures AngularDrag(SetDrag(m, value, timeScale), timeScale) == AngularDrag(m, timeScale)
  {
    assert value * timeScale / timeScale == value;
  }

  /** AdjustForce: a force applied by the user is scaled by the time scale. */
  function AdjustForce(force: Vector3, timeScale: real): (r: Vector3)
    ensures timeScale == 0.0 ==> r == Vector3(0.0, 0.0, 0.0)
    ensures timeScale == 1.0 ==> r == force
  {
    Scale(force, timeScale)
  }

  /** A force adjusted at a non-zero scale is recovered by dividing by that scale, so it
      matches the drag setter's convention. */
  lemma AdjustForceInverse(force: Vector3, timeScale: real)
    requires timeScale != 0.0
    ensures Scale(AdjustForce(force, timeScale), 1.0 / timeScale) == force
  {
    assert timeScale * (1.0 / timeScale) == 1.0;
    assert force.x * timeScale * (1.0 / timeScale) == force.x * (timeScale * (1.0 / timeScale));
    assert force.y * timeScale * (1.0 / timeScale) == force.y * (timeScale * (1.0 / timeScale));
    assert force.z * timeScale * (1.0 / timeScale) == force.z * (timeScale * (1.0 / timeScale));
  }
}
