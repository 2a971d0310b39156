/** Timeline.cs: the component that combines the scale of its clock with the scales of the
    area clocks it is in, advances its virtual time, broadcasts time-state transitions and
    fires the occurrences it has scheduled. The observed clock's scale, the frame's delta
    times and the spatial inputs of the area clocks are parameters. */
module Timelines {
  import opened Wrappers
  import opened Handles
  import opened Messages
  import opened Mathf
  import opened Lists
  import Clocks
  import opened Timekeepers
  import opened AreaClocks
  import opened Occurrences

  /** The timing state of a timeline. `messages` logs what it broadcast with SendMessage. */
  datatype Timeline = Timeline(
    id: TimelineId,
    rewindable: bool,
    timeScale: real,
    lastTimeScale: real,
    deltaTime: real,
    fixedDeltaTime: real,
    time: real,
    unscaledTime: real,
    previousDeltaTimes: seq<real>,
    schedule: Schedule,
    messages: seq<Message>)

  /** The constructor: both scales start at 1, everything else empty or zero. */
  function NewTimeline(id: TimelineId, rewindable: bool): (t: Timeline)
    ensures GetTimeState(t.timeScale) == Normal && t.lastTimeScale == t.timeScale
    ensures t.time == 0.0 && t.previousDeltaTimes == [] && t.messages == []
    ensures Known(t.schedule) && t.schedule.occurrences == []
  {
    Timeline(id, rewindable, 1.0, 1.0, 0.0, 0.0, 0.0, 0.0, [], EmptySchedule(), [])
  }

  // ---------------------------------------------------------------------------------------
  // Transition messages

  /** The message `m` when `sent` holds, nothing otherwise. */
  function SendIf(sent: bool, m: Message): (r: seq<Message>)
    ensures |r| <= 1
    ensures m in r <==> sent
  {
    if sent then [m] else []
  }

  /** TriggerEvents: the messages for a change of scale from `last` to `now`, in the order the
      source sends them. */
  function TriggerEvents(last: real, now: real): (r: seq<Message>)
    ensures OnExhaustRewind !in r
  {
    SendIf(last != 0.0 && now == 0.0, OnStartPause)
    + SendIf(last == 0.0 && now != 0.0, OnStopPause)
    + SendIf(last >= 0.0 && now < 0.0, OnStartRewind)
    + SendIf(last < 0.0 && now >= 0.0, OnStopRewind)
    + SendIf((last <= 0.0 || last >= 1.0) && (now > 0.0 && now < 1.0), OnStartSlowDown)
    + SendIf((last > 0.0 && last < 1.0) && (now <= 0.0 || now >= 1.0), OnStopSlowDown)
    + SendIf(last <= 1.0 && now > 1.0, OnStartFastForward)
    + SendIf(last > 1.0 && now <= 1.0, OnStopFastForward)
  }

  /** Which messages a change of scale sends, condition by condition. */
  lemma TriggerEventsMembers(last: real, now: real)
    ensures var r := TriggerEvents(last, now);
            && (OnStartPause in r <==> last != 0.0 && now == 0.0)
            && (OnStopPause in r <==> last == 0.0 && now != 0.0)
            && (OnStartRewind in r <==> last >= 0.0 && now < 0.0)
            && (OnStopRewind in r <==> last < 0.0 && now >= 0.0)
            && (OnStartSlowDown in r <==> (last <= 0.0 || last >= 1.0) && (now > 0.0 && now < 1.0))
            && (OnStopSlowDown in r <==> (last > 0.0 && last < 1.0) && (now <= 0.0 || now >= 1.0))
            && (OnStartFastForward in r <==> last <= 1.0 && now > 1.0)
            && (OnStopFastForward in r <==> last > 1.0 && now <= 1.0)
  {
    PauseRewindMembers(last, now);
    SlowFastMembers(last, now);
  }

  /** The pause and rewind half of TriggerEventsMembers. */
  lemma PauseRewindMembers(last: real, now: real)
    ensures var r := TriggerEvents(last, now);
            && (OnStartPause in r <==> last != 0.0 && now == 0.0)
            && (OnStopPause in r <==> last == 0.0 && now != 0.0)
            && (OnStartRewind in r <==> last >= 0.0 && now < 0.0)
            && (OnStopRewind in r <==> last < 0.0 && now >= 0.0)
  {
    SendsOfEight(last != 0.0 && now == 0.0, last == 0.0 && now != 0.0,
                 last >= 0.0 && now < 0.0, last < 0.0 && now >= 0.0,
                 (last <= 0.0 || last >= 1.0) && (now > 0.0 && now < 1.0),
                 (last > 0.0 && last < 1.0) && (now <= 0.0 || now >= 1.0),
                 last <= 1.0 && now > 1.0, last > 1.0 && now <= 1.0);
  }

  /** The slow-down and fast-forward half of TriggerEventsMembers. */
  lemma SlowFastMembers(last: real, now: real)
    ensures var r := TriggerEvents(last, now);
            && (OnStartSlowDown in r <==> (last <= 0.0 || last >= 1.0) && (now > 0.0 && now < 1.0))
            && (OnStopSlowDown in r <==> (last > 0.0 && last < 1.0) && (now <= 0.0 || now >= 1.0))
            && (OnStartFastForward in r <==> last <= 1.0 && now > 1.0)
            && (OnStopFastForward in r <==> last > 1.0 && now <= 1.0)
  {
    SendsOfEight(last != 0.0 && now == 0.0, last == 0.0 && now != 0.0,
                 last >= 0.0 && now < 0.0, last < 0.0 && now >= 0.0,
                 (last <= 0.0 || last >= 1.0) && (now > 0.0 && now < 1.0),
                 (last > 0.0 && last < 1.0) && (now <= 0.0 || now >= 1.0),
                 last <= 1.0 && now > 1.0, last > 1.0 && now <= 1.0);
  }


  /** The eight messages in TriggerEvents' order, each sent on its own condition: a message
      is in the list exactly when its condition holds. */
  lemma SendsOfEight(b1: bool, b2: bool, b3: bool, b4: bool, b5: bool, b6: bool, b7: bool, b8: bool)
    ensures var r := SendIf(b1, OnStartPause) + SendIf(b2, OnStopPause) + SendIf(b3, OnStartRewind)
                     + SendIf(b4, OnStopRewind) + SendIf(b5, OnStartSlowDown) + SendIf(b6, OnStopSlowDown)
                     + SendIf(b7, OnStartFastForward) + SendIf(b8, OnStopFastForward);
            forall x :: x in r <==>
              || (b1 && x == OnStartPause) || (b2 && x == OnStopPause)
              || (b3 && x == OnStartRewind) || (b4 && x == OnStopRewind)
              || (b5 && x == OnStartSlowDown) || (b6 && x == OnStopSlowDown)
              || (b7 && x == OnStartFastForward) || (b8 && x == OnStopFastForward)
  {
    var q1 := SendIf(b1, OnStartPause);
    var q2 := q1 + SendIf(b2, OnStopPause);
    var q3 := q2 + SendIf(b3, OnStartRewind);
    var q4 := q3 + SendIf(b4, OnStopRewind);
    var q5 := q4 + SendIf(b5, OnStartSlowDown);
    var q6 := q5 + SendIf(b6, OnStopSlowDown);
    var q7 := q6 + SendIf(b7, OnStartFastForward);
    var q8 := q7 + SendIf(b8, OnStopFastForward);
    SendAfter(q1, b2, OnStopPause);
    SendAfter(q2, b3, OnStartRewind);
    SendAfter(q3, b4, OnStopRewind);
    SendAfter(q4, b5, OnStartSlowDown);
    SendAfter(q5, b6, OnStopSlowDown);
    SendAfter(q6, b7, OnStartFastForward);
    SendAfter(q7, b8, OnStopFastForward);
  }

  /** Appending a conditional message adds exactly that message, when sent. */
  lemma SendAfter(xs: seq<Message>, sent: bool, m: Message)
    ensures forall x :: x in xs + SendIf(sent, m) <==> x in xs || (sent && x == m)
  {
    forall x ensures x in xs + SendIf(sent, m) <==> x in xs || (sent && x == m) {
      assert x in xs + SendIf(sent, m) <==> x in xs || x in SendIf(sent, m);
    }
  }

  /** Each start message is sent exactly when its time state is entered, each stop message
      exactly when it is left. */
  lemma MessagesFollowTimeStates(last: real, now: real)
    ensures var r := TriggerEvents(last, now);
            && (OnStartPause in r <==> GetTimeState(last) != Paused && GetTimeState(now) == Paused)
            && (OnStopPause in r <==> GetTimeState(last) == Paused && GetTimeState(now) != Paused)
            && (OnStartRewind in r <==> GetTimeState(last) != Reversed && GetTimeState(now) == Reversed)
            && (OnStopRewind in r <==> GetTimeState(last) == Reversed && GetTimeState(now) != Reversed)
            && (OnStartSlowDown in r <==> GetTimeState(last) != Slowed && GetTimeState(now) == Slowed)
            && (OnStopSlowDown in r <==> GetTimeState(last) == Slowed && GetTimeState(now) != Slowed)
            && (OnStartFastForward in r <==> GetTimeState(last) != Accelerated && GetTimeState(now) == Accelerated)
            && (OnStopFastForward in r <==> GetTimeState(last) == Accelerated && GetTimeState(now) != Accelerated)
  {
    TriggerEventsMembers(last, now);
  }

  /** No message is sent twice in one frame. */
  lemma MessagesAreDistinct(last: real, now: real)
    ensures NoDup(TriggerEvents(last, now))
  {
    var p1 := SendIf(last != 0.0 && now == 0.0, OnStartPause);
    var p2 := p1 + SendIf(last == 0.0 && now != 0.0, OnStopPause);
    var p3 := p2 + SendIf(last >= 0.0 && now < 0.0, OnStartRewind);
    var p4 := p3 + SendIf(last < 0.0 && now >= 0.0, OnStopRewind);
    var p5 := p4 + SendIf((last <= 0.0 || last >= 1.0) && (now > 0.0 && now < 1.0), OnStartSlowDown);
    var p6 := p5 + SendIf((last > 0.0 && last < 1.0) && (now <= 0.0 || now >= 1.0), OnStopSlowDown);
    var p7 := p6 + SendIf(last <= 1.0 && now > 1.0, OnStartFastForward);
    NoDupAppend(p1, SendIf(last == 0.0 && now != 0.0, OnStopPause));
    NoDupAppend(p2, SendIf(last >= 0.0 && now < 0.0, OnStartRewind));
    NoDupAppend(p3, SendIf(last < 0.0 && now >= 0.0, OnStopRewind));
    NoDupAppend(p4, SendIf((last <= 0.0 || last >= 1.0) && (now > 0.0 && now < 1.0), OnStartSlowDown));
    NoDupAppend(p5, SendIf((last > 0.0 && last < 1.0) && (now <= 0.0 || now >= 1.0), OnStopSlowDown));
    NoDupAppend(p6, SendIf(last <= 1.0 && now > 1.0, OnStartFastForward));
    NoDupAppend(p7, SendIf(last > 1.0 && now <= 1.0, OnStopFastForward));
  }

  /** Appending at most one element that is not already there keeps a sequence duplicate-free. */
  lemma NoDupAppend(xs: seq<Message>, ys: seq<Message>)
    requires NoDup(xs) && |ys| <= 1 && forall y :: y in ys ==> y !in xs
    ensures NoDup(xs + ys)
  {
    var zs := xs + ys;
    forall i, j | 0 <= i < j < |zs| ensures zs[i] != zs[j] {
      if j >= |xs| {
        assert zs[j] in ys && zs[i] == xs[i];
      }
    }
  }

  /** The start and stop messages of one pair are never sent together. */
  lemma StartAndStopExclusive(last: real, now: real)
    ensures var r := TriggerEvents(last, now);
            && !(OnStartPause in r && OnStopPause in r)
            && !(OnStartRewind in r && OnStopRewind in r)
            && !(OnStartSlowDown in r && OnStopSlowDown in r)
            && !(OnStartFastForward in r && OnStopFastForward in r)
  {
    MessagesFollowTimeStates(last, now);
  }

  /** Messages are sent exactly when the time state changes; an unchanged scale sends none. */
  lemma SilentIffSameState(last: real, now: real)
    ensures TriggerEvents(last, now) == [] <==> GetTimeState(last) == GetTimeState(now)
    ensures last == now ==> TriggerEvents(last, now) == []
  {
    var r := TriggerEvents(last, now);
    MessagesFollowTimeStates(last, now);
    if GetTimeState(last) != GetTimeState(now) {
      if GetTimeState(now) == Normal {
        assert OnStopPause in r || OnStopRewind in r || OnStopSlowDown in r || OnStopFastForward in r;
      } else {
        assert OnStartPause in r || OnStartRewind in r || OnStartSlowDown in r || OnStartFastForward in r;
      }
    }
  }

  /** At most one state is entered and one left, so a change sends at most two messages. */
  lemma AtMostTwoMessages(last: real, now: real)
    ensures |TriggerEvents(last, now)| <= 2
  {
    var p1 := |SendIf(last != 0.0 && now == 0.0, OnStartPause)|;
    var p2 := |SendIf(last == 0.0 && now != 0.0, OnStopPause)|;
    var p3 := |SendIf(last >= 0.0 && now < 0.0, OnStartRewind)|;
    var p4 := |SendIf(last < 0.0 && now >= 0.0, OnStopRewind)|;
    var p5 := |SendIf((last <= 0.0 || last >= 1.0) && (now > 0.0 && now < 1.0), OnStartSlowDown)|;
    var p6 := |SendIf((last > 0.0 && last < 1.0) && (now <= 0.0 || now >= 1.0), OnStopSlowDown)|;
    var p7 := |SendIf(last <= 1.0 && now > 1.0, OnStartFastForward)|;
    var p8 := |SendIf(last > 1.0 && now <= 1.0, OnStopFastForward)|;
    assert |TriggerEvents(last, now)| == p1 + p2 + p3 + p4 + p5 + p6 + p7 + p8;
    assert p1 + p3 + p5 + p7 <= 1 by {
      OneOfFour(now == 0.0, now < 0.0, now > 0.0 && now < 1.0, now > 1.0, p1, p3, p5, p7);
    }
    assert p2 + p4 + p6 + p8 <= 1 by {
      OneOfFour(last == 0.0, last < 0.0, last > 0.0 && last < 1.0, last > 1.0, p2, p4, p6, p8);
    }
  }

  /** Four counts, each non-zero only under its own condition, of four exclusive conditions
      add up to at most one. */
  lemma OneOfFour(a: bool, b: bool, c: bool, d: bool, na: nat, nb: nat, nc: nat, nd: nat)
    requires !(a && b) && !(a && c) && !(a && d) && !(b && c) && !(b && d) && !(c && d)
    requires na <= 1 && nb <= 1 && nc <= 1 && nd <= 1
    requires (na > 0 ==> a) && (nb > 0 ==> b) && (nc > 0 ==> c) && (nd > 0 ==> d)
    ensures na + nb + nc + nd <= 1
  {
  }


  // ---------------------------------------------------------------------------------------
  // Delta-time smoothing

  /** The non-zero elements of a sequence, in order. */
  function NonZero(ds: seq<real>): (r: seq<real>)
    ensures forall i :: 0 <= i < |r| ==> r[i] != 0.0
    ensures |r| <= |ds|
    decreases |ds|
  {
    if |ds| == 0 then []
    else NonZero(ds[..|ds| - 1]) + (if ds[|ds| - 1] != 0.0 then [ds[|ds| - 1]] else [])
  }

  /** RecordSmoothing: queue a non-zero delta time, then drop the oldest one if the queue is
      longer than `window`, the static Timeline.smoothingDeltas (5 unless a program changes
      it). The queue keeps the latest non-zero deltas. */
  function RecordSmoothing(queue: seq<real>, deltaTime: real, window: nat): (r: seq<real>)
    ensures |queue| <= window ==> |r| <= window
    ensures |queue| <= window ==> r == LastN(queue + NonZero([deltaTime]), window)
    ensures deltaTime == 0.0 && |queue| <= window ==> r == queue
    ensures |queue| > window ==> |r| == |queue| - (if deltaTime == 0.0 then 1 else 0)
  {
    assert [deltaTime][..0] == [];
    var queued := if deltaTime != 0.0 then queue + [deltaTime] else queue;
    if |queued| > window then queued[1..] else queued
  }

  /** The queue after a run of frames with the given delta times. */
  function SmoothingAfter(queue: seq<real>, deltas: seq<real>, window: nat): seq<real>
    decreases |deltas|
  {
    if |deltas| == 0 then queue
    else RecordSmoothing(SmoothingAfter(queue, deltas[..|deltas| - 1], window), deltas[|deltas| - 1], window)
  }

  /** Starting from an empty queue, with any window, the queue holds the latest `window`
      non-zero delta times of all frames so far, oldest first. */
  lemma {:induction false} SmoothingKeepsLatest(deltas: seq<real>, window: nat)
    ensures SmoothingAfter([], deltas, window) == LastN(NonZero(deltas), window)
    decreases |deltas|
  {
    if |deltas| > 0 {
      var init, d := deltas[..|deltas| - 1], deltas[|deltas| - 1];
      SmoothingKeepsLatest(init, window);
      var xs := NonZero(init);
      assert [d][..0] == [] && [d][0] == d;
      assert NonZero(deltas) == xs + NonZero([d]);
      LastNAppend(xs, NonZero([d]), window);
    }
  }

  /** smoothDeltaTime: the mean of the current delta time and the queued ones. */
  function SmoothDeltaTime(t: Timeline): (r: real)
    ensures r * (|t.previousDeltaTimes| as real + 1.0) == t.deltaTime + Sum(t.previousDeltaTimes)
    ensures t.previousDeltaTimes == [] ==> r == t.deltaTime
  {
    (t.deltaTime + Sum(t.previousDeltaTimes)) / (|t.previousDeltaTimes| as real + 1.0)
  }

  /** The smoothed delta time lies within any bounds of the deltas it averages. */
  lemma SmoothDeltaTimeBounds(t: Timeline, lo: real, hi: real)
    requires lo <= t.deltaTime <= hi
    requires forall i :: 0 <= i < |t.previousDeltaTimes| ==> lo <= t.previousDeltaTimes[i] <= hi
    ensures lo <= SmoothDeltaTime(t) <= hi
  {
    var n := |t.previousDeltaTimes| as real + 1.0;
    SumBounds(t.previousDeltaTimes, lo, hi);
    MeanBounds(t.deltaTime + Sum(t.previousDeltaTimes), n, lo, hi);
  }

  lemma MeanBounds(total: real, n: real, lo: real, hi: real)
    requires n > 0.0 && lo * n <= total <= hi * n
    ensures lo <= total / n <= hi
  {
    assert total / n - lo == (total - lo * n) / n;
    assert hi - total / n == (hi * n - total) / n;
  }

  /** A sum of terms in [lo, hi] lies between |xs| times lo and |xs| times hi. */
  lemma {:induction false} SumBounds(xs: seq<real>, lo: real, hi: real)
    requires forall i :: 0 <= i < |xs| ==> lo <= xs[i] <= hi
    ensures |xs| as real * lo <= Sum(xs) <= |xs| as real * hi
    decreases |xs|
  {
    if |xs| > 0 {
      var init := xs[..|xs| - 1];
      assert forall i :: 0 <= i < |init| ==> init[i] == xs[i];
      SumBounds(init, lo, hi);
      var n := |init| as real;
      assert Sum(xs) == Sum(init) + xs[|xs| - 1];
      assert |xs| as real * lo == n * lo + lo && |xs| as real * hi == n * hi + hi;
    }
  }

  // ---------------------------------------------------------------------------------------
  // Combining the clock with the area clocks

  /** What the area clocks need to know about this timeline's place in the world: per area
      clock, its falloff curve, the PointToEdge scale at the timeline's position, and the
      distance from a given entry point to the timeline. */
  datatype Surroundings = Surroundings(
    curve: AreaId -> real -> real,
    pointToEdge: AreaId -> real,
    distanceFrom: AreaId -> Vector3 -> real)

  /** Distances are magnitudes. */
  ghost predicate Physical(env: Surroundings) {
    forall a, v :: env.distanceFrom(a)(v) >= 0.0
  }

  /** The scale area clock `a` applies to timeline `self`. */
  function AreaScale(scene: Scene, a: AreaId, self: TimelineId, env: Surroundings): Result<real>
    requires Physical(env) && a in scene.areas
  {
    AreaClocks.TimeScale(scene.areas[a], Some(self), env.curve(a), env.pointToEdge(a), env.distanceFrom(a))
  }

  /** Blend an area clock's scale into the running scale. */
  function Blend(acc: real, scale: real, blend: Clocks.ClockBlend): real {
    if blend == Clocks.Multiplicative then acc * scale else acc + scale
  }

  /** The loop in Update over the timeline's area clocks: destroyed clocks are skipped; the
      first area clock that throws stops the loop, leaving the scale computed so far. The
      result is the scale and the exception thrown, if any. */
  function FoldAreas(scene: Scene, self: TimelineId, ids: seq<AreaId>, start: real, env: Surroundings)
    : (r: (real, Option<Error>))
    requires Physical(env)
    ensures r.1.None? <==> forall i :: 0 <= i < |ids| && ids[i] in scene.areas ==> AreaScale(scene, ids[i], self, env).Ok?
    ensures r.1.Some? ==> exists i :: 0 <= i < |ids| && ids[i] in scene.areas && AreaScale(scene, ids[i], self, env) == Err(r.1.value)
    decreases |ids|
  {
    if |ids| == 0 then (start, None)
    else
      var init, a := ids[..|ids| - 1], ids[|ids| - 1];
      assert forall i :: 0 <= i < |init| ==> init[i] == ids[i];
      var prev := FoldAreas(scene, self, init, start, env);
      if prev.1.Some? || a !in scene.areas then prev
      else match AreaScale(scene, a, self, env)
        case Err(e) => (prev.0, Some(e))
        case Ok(v) => (Blend(prev.0, v, scene.areas[a].innerBlend), None)
  }

  /** The scales of the live area clocks among `ids`, in order. */
  function LiveScales(scene: Scene, ids: seq<AreaId>): seq<real>
    decreases |ids|
  {
    if |ids| == 0 then []
    else
      var init, a := ids[..|ids| - 1], ids[|ids| - 1];
      LiveScales(scene, init) + (if a in scene.areas then [scene.areas[a].timeScale] else [])
  }

  /** Instant multiplicative area clocks multiply the clock's scale by all their scales... */
  lemma {:induction false} FoldOfMultiplicative(scene: Scene, self: TimelineId, ids: seq<AreaId>, start: real, env: Surroundings)
    requires Physical(env)
    requires forall i :: 0 <= i < |ids| && ids[i] in scene.areas ==>
               scene.areas[ids[i]].mode == Instant && scene.areas[ids[i]].innerBlend == Clocks.Multiplicative
    ensures FoldAreas(scene, self, ids, start, env).1.None?
    ensures FoldAreas(scene, self, ids, start, env).0 == start * Product(LiveScales(scene, ids))
    decreases |ids|
  {
    if |ids| > 0 {
      var init, a := ids[..|ids| - 1], ids[|ids| - 1];
      assert forall i :: 0 <= i < |init| ==> init[i] == ids[i];
      FoldOfMultiplicative(scene, self, init, start, env);
      if a in scene.areas {
        MultiplicativeStep(scene, self, ids, start, env);
      } else {
        assert LiveScales(scene, ids) == LiveScales(scene, init);
      }
    }
  }

  lemma MultiplicativeStep(scene: Scene, self: TimelineId, ids: seq<AreaId>, start: real, env: Surroundings)
    requires Physical(env) && |ids| > 0
    requires var a := ids[|ids| - 1];
             a in scene.areas && scene.areas[a].mode == Instant && scene.areas[a].innerBlend == Clocks.Multiplicative
    requires var prev := FoldAreas(scene, self, ids[..|ids| - 1], start, env);
             prev.1.None? && prev.0 == start * Product(LiveScales(scene, ids[..|ids| - 1]))
    ensures FoldAreas(scene, self, ids, start, env).1.None?
    ensures FoldAreas(scene, self, ids, start, env).0 == start * Product(LiveScales(scene, ids))
  {
    var init, a := ids[..|ids| - 1], ids[|ids| - 1];
    var xs := LiveScales(scene, init);
    var v := scene.areas[a].timeScale;
    var acc := FoldAreas(scene, self, init, start, env).0;
    assert Product(LiveScales(scene, ids)) == Product(xs) * v by {
      assert LiveScales(scene, ids) == xs + [v];
      ProductSnoc(xs, v);
    }
    assert FoldAreas(scene, self, ids, start, env) == (acc * v, None) by {
      assert AreaScale(scene, a, self, env) == Ok(v);
      FoldLive(scene, self, ids, start, env);
      assert Blend(acc, v, Clocks.Multiplicative) == acc * v;
    }
    MulStep(acc, start, Product(xs), v);
  }

  /** One more live area clock that does not throw blends its scale into the result. */
  lemma FoldLive(scene: Scene, self: TimelineId, ids: seq<AreaId>, start: real, env: Surroundings)
    requires Physical(env) && |ids| > 0 && ids[|ids| - 1] in scene.areas
    requires FoldAreas(scene, self, ids[..|ids| - 1], start, env).1.None?
    requires AreaScale(scene, ids[|ids| - 1], self, env).Ok?
    ensures var a := ids[|ids| - 1];
            FoldAreas(scene, self, ids, start, env)
              == (Blend(FoldAreas(scene, self, ids[..|ids| - 1], start, env).0,
                        AreaScale(scene, a, self, env).value, scene.areas[a].innerBlend), None)
  {
  }

  /** ... and instant additive ones add all their scales to it. */
  lemma {:induction false} FoldOfAdditive(scene: Scene, self: TimelineId, ids: seq<AreaId>, start: real, env: Surroundings)
    requires Physical(env)
    requires forall i :: 0 <= i < |ids| && ids[i] in scene.areas ==>
               scene.areas[ids[i]].mode == Instant && scene.areas[ids[i]].innerBlend == Clocks.Additive
    ensures FoldAreas(scene, self, ids, start, env) == (start + Sum(LiveScales(scene, ids)), None)
    decreases |ids|
  {
    if |ids| > 0 {
      var init, a := ids[..|ids| - 1], ids[|ids| - 1];
      assert forall i :: 0 <= i < |init| ==> init[i] == ids[i];
      FoldOfAdditive(scene, self, init, start, env);
      var xs := LiveScales(scene, init);
      if a in scene.areas {
        var v := scene.areas[a].timeScale;
        var ys := xs + [v];
        assert AreaScale(scene, a, self, env) == Ok(v);
        assert LiveScales(scene, ids) == ys;
        assert ys[..|ys| - 1] == xs;
        assert Sum(ys) == Sum(xs) + v;
        var prev := FoldAreas(scene, self, init, start, env);
        assert prev == (start + Sum(xs), None);
        assert FoldAreas(scene, self, ids, start, env) == (Blend(prev.0, v, Clocks.Additive), None);
      } else {
        assert LiveScales(scene, ids) == xs;
      }
    }
  }

  /** When occupancy is consistent and no area clock has a negative padding, the loop over a
      timeline's own list never throws. */
  lemma FoldNeverThrowsWhenLinked(scene: Scene, self: TimelineId, start: real, env: Surroundings)
    requires Physical(env) && Linked(scene)
    requires forall a :: a in scene.areas ==> scene.areas[a].padding >= 0.0
    ensures FoldAreas(scene, self, ListOf(scene, self), start, env).1.None?
  {
    var ids := ListOf(scene, self);
    forall i | 0 <= i < |ids| && ids[i] in scene.areas ensures AreaScale(scene, ids[i], self, env).Ok? {
      var a := ids[i];
      CapturedHasEntry(scene, a, self, env.curve(a), env.pointToEdge(a), env.distanceFrom(a));
    }
  }

  // ---------------------------------------------------------------------------------------
  // The frame update

  /** The scale after the area clocks, capped at 0 for a timeline that cannot rewind. */
  function Capped(rewindable: bool, scale: real): (r: real)
    ensures !rewindable ==> r >= 0.0 && (scale >= 0.0 ==> r == scale)
    ensures rewindable ==> r == scale
  {
    if rewindable then scale else Max(0.0, scale)
  }

  /** The first part of Timeline.Update: send the messages for the previous frame's change of
      scale, recompute the scale from the clock's scale `clockScale` and the area clocks, and
      advance virtual time by `unscaledDelta` (Timekeeper.unscaledDeltaTime) times the new
      scale; `window` is the static smoothingDeltas. If an area clock throws, the frame stops
      there, with the scale computed so far. */
  function Advance(t: Timeline, clockScale: real, scene: Scene, env: Surroundings, unscaledDelta: real,
                   fixedStep: real, window: nat)
    : (r: Completion<Timeline>)
    requires Physical(env)
    ensures r.state.messages == t.messages + TriggerEvents(t.lastTimeScale, t.timeScale)
    ensures r.state.lastTimeScale == t.timeScale
    ensures r.state == r.state.(messages := t.messages + TriggerEvents(t.lastTimeScale, t.timeScale)).(
              lastTimeScale := t.timeScale, timeScale := r.state.timeScale, deltaTime := r.state.deltaTime,
              fixedDeltaTime := r.state.fixedDeltaTime, time := r.state.time, unscaledTime := r.state.unscaledTime,
              previousDeltaTimes := r.state.previousDeltaTimes)
    ensures r.state.id == t.id && r.state.rewindable == t.rewindable && r.state.schedule == t.schedule
    ensures var f := FoldAreas(scene, t.id, ListOf(scene, t.id), clockScale, env);
            && (r.Threw? <==> f.1.Some?)
            && (r.Threw? ==> r.error == f.1.value && r.state.timeScale == f.0 && r.state.time == t.time)
            && (r.Returned? ==> r.state.timeScale == Capped(t.rewindable, f.0))
    ensures r.Returned? && !t.rewindable ==> r.state.timeScale >= 0.0
    ensures r.Returned? ==> var n := r.state;
              && n.deltaTime == unscaledDelta * n.timeScale
              && n.fixedDeltaTime == fixedStep * n.timeScale
              && n.time == t.time + n.deltaTime
              && n.unscaledTime == t.unscaledTime + unscaledDelta
              && n.previousDeltaTimes == RecordSmoothing(t.previousDeltaTimes, n.deltaTime, window)
  {
    var n := t.(messages := t.messages + TriggerEvents(t.lastTimeScale, t.timeScale), lastTimeScale := t.timeScale);
    var f := FoldAreas(scene, t.id, ListOf(scene, t.id), clockScale, env);
    if f.1.Some? then Threw(f.1.value, n.(timeScale := f.0))
    else
      var scale := Capped(t.rewindable, f.0);
      var delta := unscaledDelta * scale;
      Returned(n.(timeScale := scale, deltaTime := delta, fixedDeltaTime := fixedStep * scale,
                  time := t.time + delta, unscaledTime := t.unscaledTime + unscaledDelta,
                  previousDeltaTimes := RecordSmoothing(t.previousDeltaTimes, delta, window)))
  }

  /** The last part of Timeline.Update: fire the due occurrences, forward when time runs
      forward, backward when it rewinds, none while it is paused. */
  method FireDue(t: Timeline) returns (r: Timeline, firedNow: seq<OccurrenceId>)
    requires Known(t.schedule)
    ensures r == t.(schedule := r.schedule) && Known(r.schedule)
    ensures t.timeScale == 0.0 ==> firedNow == [] && r == t
    ensures t.timeScale > 0.0 ==> var s, n := t.schedule, r.schedule;
              && n.fired == s.fired + Forwards(firedNow)
              && n.occurrences == s.occurrences
              && (forall i :: 0 <= i < |firedNow| ==> firedNow[i] in s.info && s.info[firedNow[i]].time <= t.time)
              && (n.nextForward.None? || TimeOf(n, n.nextForward.value) > t.time)
              && (ForwardReady(s, t.time) ==> ForwardReady(n, t.time))
              && (forall prev :: ForwardReady(s, prev) ==>
                    forall o :: o in s.occurrences && prev < TimeOf(s, o) <= t.time ==> o in firedNow)
    ensures t.timeScale < 0.0 ==> var s, n := t.schedule, r.schedule;
              && n.fired == s.fired + Backwards(firedNow)
              && multiset(n.occurrences) <= multiset(s.occurrences)
              && (forall i :: 0 <= i < |firedNow| ==> firedNow[i] in s.info && s.info[firedNow[i]].time >= t.time)
              && (forall o :: o in firedNow && !s.info[o].repeatable ==> o !in n.occurrences)
              && (n.nextBackward.None? || TimeOf(n, n.nextBackward.value) < t.time)
              && (BackwardReady(s, t.time) ==> BackwardReady(n, t.time))
              && (forall prev :: BackwardReady(s, prev) ==>
                    forall o :: o in s.occurrences && t.time <= TimeOf(s, o) < prev ==> o in firedNow)
  {
    r, firedNow := t, [];
    if t.timeScale > 0.0 {
      var s;
      s, firedNow := TriggerForward(t.schedule, t.time);
      r := t.(schedule := s);
    } else if t.timeScale < 0.0 {
      var s;
      s, firedNow := TriggerBackward(t.schedule, t.time);
      r := t.(schedule := s);
    }
  }

  /** Timeline.Update for one frame: Advance, then FireDue unless an area clock threw. The
      components' own updates (base.Update) are modelled with each component. */
  method Update(t: Timeline, clockScale: real, scene: Scene, env: Surroundings, unscaledDelta: real,
                fixedStep: real, window: nat)
    returns (r: Completion<Timeline>, firedNow: seq<OccurrenceId>)
    requires Physical(env) && Known(t.schedule)
    ensures var a := Advance(t, clockScale, scene, env, unscaledDelta, fixedStep, window);
            && (a.Threw? ==> r == a && firedNow == [])
            && (a.Returned? ==> r.Returned? && r.state == a.state.(schedule := r.state.schedule))
    ensures Known(r.state.schedule)
    ensures r.Returned? && r.state.timeScale > 0.0 ==> var s, n := t.schedule, r.state.schedule;
              && n.fired == s.fired + Forwards(firedNow)
              && (n.nextForward.None? || TimeOf(n, n.nextForward.value) > r.state.time)
              && (ForwardReady(s, t.time) ==>
                    forall o :: o in s.occurrences && t.time < TimeOf(s, o) <= r.state.time ==> o in firedNow)
    ensures r.Returned? && r.state.timeScale < 0.0 ==> var s, n := t.schedule, r.state.schedule;
              && n.fired == s.fired + Backwards(firedNow)
              && (n.nextBackward.None? || TimeOf(n, n.nextBackward.value) < r.state.time)
              && (BackwardReady(s, t.time) ==>
                    forall o :: o in s.occurrences && r.state.time <= TimeOf(s, o) < t.time ==> o in firedNow)
    ensures r.Returned? && r.state.timeScale == 0.0 ==> firedNow == [] && r.state.schedule == t.schedule
  {
    var a := Advance(t, clockScale, scene, env, unscaledDelta, fixedStep, window);
    if a.Threw? {
      return a, [];
    }
    var n;
    n, firedNow := FireDue(a.state);
    r := Returned(n);
  }

  /** A non-rewindable timeline never runs backward, whatever its clocks say. */
  lemma NonRewindableNeverRewinds(t: Timeline, clockScale: real, scene: Scene, env: Surroundings)
    requires Physical(env) && !t.rewindable
    ensures var f := FoldAreas(scene, t.id, ListOf(scene, t.id), clockScale, env);
            GetTimeState(Capped(t.rewindable, f.0)) != Reversed
  {
  }

  // ---------------------------------------------------------------------------------------
  // Releasing and resetting

  /** Release the timeline from each live area clock in `ids`, in order. */
  function ReleaseEach(s: Scene, self: TimelineId, ids: seq<AreaId>): (r: Scene)
    ensures r.areas.Keys == s.areas.Keys
    ensures forall a :: a in s.areas ==>
              r.areas[a] == s.areas[a].(within := if a in ids then s.areas[a].within - {self} else s.areas[a].within)
    ensures forall u :: u != self ==> ListOf(r, u) == ListOf(s, u)
    decreases |ids|
  {
    if |ids| == 0 then s
    else
      var next := if ids[0] in s.areas then Release(s, ids[0], Some(self)).value else s;
      var r := ReleaseEach(next, self, ids[1..]);
      if ids[0] in s.areas then ReleaseForgets(s, ids[0], self); ReleaseEachStep(s, next, r, self, ids); r
      else ReleaseEachStep(s, next, r, self, ids); r
  }

  lemma ReleaseEachStep(s: Scene, next: Scene, r: Scene, self: TimelineId, ids: seq<AreaId>)
    requires |ids| > 0
    requires ids[0] in s.areas ==>
               && next.areas.Keys == s.areas.Keys
               && next.areas[ids[0]] == s.areas[ids[0]].(within := s.areas[ids[0]].within - {self})
               && next.areas[ids[0]].within - {self} == next.areas[ids[0]].within
               && (forall b :: b in s.areas && b != ids[0] ==> next.areas[b] == s.areas[b])
               && (forall u :: u != self ==> ListOf(next, u) == ListOf(s, u))
    requires ids[0] !in s.areas ==> next == s
    requires r.areas.Keys == next.areas.Keys
    requires forall a :: a in next.areas ==>
               r.areas[a] == next.areas[a].(within := if a in ids[1..] then next.areas[a].within - {self} else next.areas[a].within)
    requires forall u :: u != self ==> ListOf(r, u) == ListOf(next, u)
    ensures r.areas.Keys == s.areas.Keys
    ensures forall a :: a in s.areas ==>
              r.areas[a] == s.areas[a].(within := if a in ids then s.areas[a].within - {self} else s.areas[a].within)
    ensures forall u :: u != self ==> ListOf(r, u) == ListOf(s, u)
  {
    forall a | a in s.areas
      ensures r.areas[a] == s.areas[a].(within := if a in ids then s.areas[a].within - {self} else s.areas[a].within)
    {
      assert a in ids <==> a == ids[0] || a in ids[1..];
    }
  }

  /** Releasing one timeline from one area clock removes just that entry. */
  lemma ReleaseForgets(s: Scene, a: AreaId, self: TimelineId)
    requires a in s.areas
    ensures var next := Release(s, a, Some(self)).value;
            && next.areas.Keys == s.areas.Keys
            && next.areas[a] == s.areas[a].(within := s.areas[a].within - {self})
            && next.areas[a].within - {self} == next.areas[a].within
            && (forall b :: b in s.areas && b != a ==> next.areas[b] == s.areas[b])
            && (forall u :: u != self ==> ListOf(next, u) == ListOf(s, u))
  {
    var after := Release(s, a, Some(self)).value.areas[a].within;
    assert after == s.areas[a].within - {self};
    assert after - {self} == after;
  }

  /** ReleaseFromAll (also what OnDisable does): release the timeline from every live area
      clock in its list, then empty the list. */
  function ReleaseFromAll(s: Scene, self: TimelineId): (r: Scene)
    ensures r.areas.Keys == s.areas.Keys
    ensures ListOf(r, self) == []
    ensures forall u :: u != self ==> ListOf(r, u) == ListOf(s, u)
    ensures forall a :: a in s.areas ==> r.areas[a] == s.areas[a].(within := r.areas[a].within)
    ensures forall a :: a in s.areas && a in ListOf(s, self) ==> self !in r.areas[a].within
  {
    var released := ReleaseEach(s, self, ListOf(s, self));
    released.(areaClocks := released.areaClocks[self := []])
  }

  /** On consistent occupancy, ReleaseFromAll detaches the timeline from every area clock and
      keeps the two sides consistent. */
  lemma ReleaseFromAllDetaches(s: Scene, self: TimelineId)
    requires Linked(s) && NoDuplicates(s)
    ensures Linked(ReleaseFromAll(s, self)) && NoDuplicates(ReleaseFromAll(s, self))
    ensures forall a :: a in s.areas ==> self !in ReleaseFromAll(s, self).areas[a].within
  {
    var r := ReleaseFromAll(s, self);
    forall a, u | a in r.areas ensures u in r.areas[a].within <==> a in ListOf(r, u) {
      assert u in s.areas[a].within <==> a in ListOf(s, u);
    }
    forall u | u in r.areaClocks ensures NoDup(r.areaClocks[u]) {
      assert r.areaClocks[u] == ListOf(r, u);
      if u != self {
        assert r.areaClocks[u] == ListOf(s, u);
        if u in s.areaClocks {
          assert ListOf(s, u) == s.areaClocks[u];
        }
      }
    }
  }

  /** Timeline.Reset: scales back to 1, smoothing queue emptied, every occurrence dropped and
      both cursors cleared; virtual time itself is kept. */
  function Reset(t: Timeline): (r: Timeline)
    ensures GetTimeState(r.timeScale) == Normal && r.lastTimeScale == r.timeScale
    ensures r.previousDeltaTimes == []
    ensures Known(r.schedule) && r.schedule.occurrences == [] && r.schedule.nextForward.None? && r.schedule.nextBackward.None?
    ensures r.time == t.time && r.unscaledTime == t.unscaledTime && r.messages == t.messages
  {
    t.(timeScale := 1.0, lastTimeScale := 1.0, previousDeltaTimes := [],
       schedule := t.schedule.(occurrences := [], nextForward := None, nextBackward := None))
  }

  /** After a reset, the next frame broadcasts nothing and nothing is due. */
  lemma ResetIsQuiet(t: Timeline, now: real)
    ensures TriggerEvents(Reset(t).lastTimeScale, Reset(t).timeScale) == []
    ensures ForwardReady(Reset(t).schedule, now) && BackwardReady(Reset(t).schedule, now)
  {
  }
}
