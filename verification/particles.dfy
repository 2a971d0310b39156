/** RewindableParticleSystemTimeline.cs: the bookkeeping that lets a particle system be
    rewound. Every change of play state is pushed on a stack of state events stamped with the
    timeline's time, and every change of emission on a log stamped with the simulation time;
    both are written only while time runs forward, and a rewind pops the stack and drops the
    log entries from the future. The simulation itself (Simulate, particle counts, looped
    time) is not part of this model. */
module Particles {
  import opened Wrappers
  import opened Severities
  import Lists

  datatype PlayState = Playing | Paused | Stopping | Stopped

  datatype EmissionAction = EnableEmission | DisableEmission | Play | Stop

  /** StateEvent and EmissionEvent are structs: two entries with the same fields are equal. */
  datatype StateEvent = StateEvent(state: PlayState, time: real)

  datatype EmissionEvent = EmissionEvent(action: EmissionAction, time: real)

  /** The component's fields, without the particle system it drives. */
  datatype ParticleLog = ParticleLog(
    state: PlayState,
    stateOnStart: PlayState,
    stateEvents: seq<StateEvent>,
    enableEmission: bool,
    enableEmissionOnStart: bool,
    emissionEvents: seq<EmissionEvent>,
    absoluteSimulationTime: real,
    loopedSimulationTime: real,
    relativeStartTime: real)

  /** What the component reads from its timeline. */
  datatype Frame = Frame(timeScale: real, time: real)

  // ---------------------------------------------------------------------------------------
  // State predicates

  predicate IsPlaying(p: ParticleLog) { p.state == Playing || p.state == Stopping }

  predicate IsPaused(p: ParticleLog) { p.state == Paused }

  predicate IsStopped(p: ParticleLog) { p.state == Stopped }

  /** Exactly one of isPlaying, isPaused and isStopped holds. */
  lemma StatePredicatesPartition(p: ParticleLog)
    ensures IsPlaying(p) || IsPaused(p) || IsStopped(p)
    ensures !(IsPlaying(p) && IsPaused(p)) && !(IsPlaying(p) && IsStopped(p)) && !(IsPaused(p) && IsStopped(p))
  {
  }

  /** The stack and the current state agree: the state is that of the newest event, or the
      one the system started in when no event remains. */
  predicate Consistent(p: ParticleLog) {
    p.state == if |p.stateEvents| == 0 then p.stateOnStart else p.stateEvents[|p.stateEvents| - 1].state
  }

  // ---------------------------------------------------------------------------------------
  // Writes, all guarded on forward time

  /** The state setter: throws unless time runs forward; pushes an event stamped with the
      timeline's time only when the state actually changes. */
  function SetState(p: ParticleLog, s: PlayState, f: Frame): (r: Result<ParticleLog>)
    ensures r.Err? <==> f.timeScale <= 0.0
    ensures r.Err? ==> r.error == Chronos(NotForward)
    ensures r.Ok? ==> r.value.state == s
    ensures r.Ok? && p.state == s ==> r.value == p
    ensures r.Ok? && p.state != s ==> r.value == p.(state := s, stateEvents := p.stateEvents + [StateEvent(s, f.time)])
    ensures r.Ok? && Consistent(p) ==> Consistent(r.value)
  {
    match AssertForward(f.timeScale, Severity.Error)
    case Err(e) => Err(e)
    case Ok(forward) =>
      if !forward then Ok(p)
      else if p.state != s then Ok(p.(state := s, stateEvents := p.stateEvents + [StateEvent(s, f.time)]))
      else Ok(p)
  }

  /** Setting the state while time runs forward; only then can the setter not throw. */
  function ForwardState(p: ParticleLog, s: PlayState, f: Frame): (r: ParticleLog)
    requires f.timeScale > 0.0
    ensures r == SetState(p, s, f).value
  {
    SetState(p, s, f).value
  }

  /** The enableEmission setter: ignored unless time runs forward; logs an enable or a disable,
      stamped with the simulation time, when the flag changes, and nothing otherwise. */
  function SetEnableEmission(p: ParticleLog, value: bool, f: Frame): (r: ParticleLog)
    ensures f.timeScale <= 0.0 ==> r == p
    ensures f.timeScale > 0.0 ==> r.enableEmission == value
    ensures f.timeScale > 0.0 && p.enableEmission && !value ==>
              r.emissionEvents == p.emissionEvents + [EmissionEvent(DisableEmission, p.absoluteSimulationTime)]
    ensures f.timeScale > 0.0 && !p.enableEmission && value ==>
              r.emissionEvents == p.emissionEvents + [EmissionEvent(EnableEmission, p.absoluteSimulationTime)]
    ensures p.enableEmission == value ==> r == p
    ensures r == p.(enableEmission := r.enableEmission, emissionEvents := r.emissionEvents)
  {
    if AssertForward(f.timeScale, Warn) != Ok(true) then p
    else
      var logged := if p.enableEmission && !value then Log(p, DisableEmission)
                    else if !p.enableEmission && value then Log(p, EnableEmission)
                    else p;
      logged.(enableEmission := value)
  }

  /** RegisterEmission: append an action stamped with the simulation time. */
  function Log(p: ParticleLog, a: EmissionAction): (r: ParticleLog)
    ensures r == p.(emissionEvents := p.emissionEvents + [EmissionEvent(a, p.absoluteSimulationTime)])
  {
    p.(emissionEvents := p.emissionEvents + [EmissionEvent(a, p.absoluteSimulationTime)])
  }

  /** Play: ignored unless time runs forward. Unless resuming from a pause, log a Play and
      restart the relative clock at the current looped time; then the state becomes Playing. */
  function PlaySystem(p: ParticleLog, f: Frame): (r: ParticleLog)
    ensures f.timeScale <= 0.0 ==> r == p
    ensures f.timeScale > 0.0 ==> r.state == Playing
    ensures f.timeScale > 0.0 && p.state != Paused ==>
              && r.emissionEvents == p.emissionEvents + [EmissionEvent(Play, p.absoluteSimulationTime)]
              && r.relativeStartTime == p.loopedSimulationTime
    ensures p.state == Paused ==> r.emissionEvents == p.emissionEvents && r.relativeStartTime == p.relativeStartTime
    ensures Consistent(p) ==> Consistent(r)
  {
    if AssertForward(f.timeScale, Warn) != Ok(true) then p
    else
      var started := if p.state != Paused then Log(p, Play).(relativeStartTime := p.loopedSimulationTime) else p;
      ForwardState(started, Playing, f)
  }

  /** Pause: ignored unless time runs forward; otherwise the state becomes Paused. */
  function PauseSystem(p: ParticleLog, f: Frame): (r: ParticleLog)
    ensures f.timeScale <= 0.0 ==> r == p
    ensures f.timeScale > 0.0 ==> r.state == Paused && r.emissionEvents == p.emissionEvents
    ensures Consistent(p) ==> Consistent(r)
  {
    if AssertForward(f.timeScale, Warn) != Ok(true) then p
    else ForwardState(p, Paused, f)
  }

  /** Stop: ignored unless time runs forward; otherwise the state becomes Stopping (the
      particles already out still play out) and a Stop is logged. */
  function StopSystem(p: ParticleLog, f: Frame): (r: ParticleLog)
    ensures f.timeScale <= 0.0 ==> r == p
    ensures f.timeScale > 0.0 ==> r.state == Stopping
    ensures f.timeScale > 0.0 ==> r.emissionEvents == p.emissionEvents + [EmissionEvent(Stop, p.absoluteSimulationTime)]
    ensures Consistent(p) ==> Consistent(r)
  {
    if AssertForward(f.timeScale, Warn) != Ok(true) then p
    else Log(ForwardState(p, Stopping, f), Stop)
  }

  /** IsAlive: false once stopped; otherwise true, or, with children, whether every child
      particle system is alive (`childrenAlive`). */
  function IsAlive(p: ParticleLog, withChildren: bool, childrenAlive: bool): (r: bool)
    ensures r <==> !IsStopped(p) && (withChildren ==> childrenAlive)
  {
    if p.state == Stopped then false
    else if withChildren then childrenAlive
    else true
  }

  /** Nothing is written while time is paused or rewinding: Play, Pause, Stop and the
      emission setter leave the component as it was, and the state setter throws. */
  lemma WritesOnlyForward(p: ParticleLog, s: PlayState, value: bool, f: Frame)
    requires f.timeScale <= 0.0
    ensures PlaySystem(p, f) == p && PauseSystem(p, f) == p && StopSystem(p, f) == p
    ensures SetEnableEmission(p, value, f) == p
    ensures SetState(p, s, f) == Err(Chronos(NotForward))
  {
  }

  // ---------------------------------------------------------------------------------------
  // CopyProperties

  /** CopyProperties: the start state (Playing when the system plays on awake, Stopped
      otherwise) goes through the setter, which pushes an event when it differs from the
      default Playing and throws unless time runs forward; the emission flag is copied; the
      particle time is set to 0. */
  function CopyProperties(playOnAwake: bool, emissionEnabled: bool, f: Frame): (r: Result<ParticleLog>)
    ensures r.Err? <==> f.timeScale <= 0.0
    ensures r.Ok? ==> Consistent(r.value) && r.value.emissionEvents == []
    ensures r.Ok? ==> r.value.stateOnStart == r.value.state == (if playOnAwake then Playing else Stopped)
    ensures r.Ok? ==> r.value.stateEvents == (if playOnAwake then [] else [StateEvent(Stopped, f.time)])
  {
    var blank := ParticleLog(Playing, Playing, [], false, false, [], 0.0, 0.0, 0.0);
    var start := if playOnAwake then Playing else Stopped;
    match SetState(blank, start, f)
    case Err(e) => Err(e)
    case Ok(n) =>
      Ok(n.(stateOnStart := start, enableEmissionOnStart := emissionEnabled, enableEmission := emissionEnabled,
            loopedSimulationTime := n.relativeStartTime + 0.0))
  }

  // ---------------------------------------------------------------------------------------
  // Rewinding

  /** The state stack as Update pops it: when rewinding reaches the time of the newest event,
      that event goes and the state becomes the one before it. */
  function PopState(p: ParticleLog, time: real): (r: ParticleLog)
    ensures r == p.(state := r.state, stateEvents := r.stateEvents)
    ensures |p.stateEvents| == 0 || time > p.stateEvents[|p.stateEvents| - 1].time ==> r == p
    ensures |p.stateEvents| > 0 && time <= p.stateEvents[|p.stateEvents| - 1].time ==>
              r.stateEvents == p.stateEvents[..|p.stateEvents| - 1]
    ensures Consistent(p) || r != p ==> Consistent(r)
  {
    var n := |p.stateEvents|;
    if n > 0 && time <= p.stateEvents[n - 1].time then
      var rest := p.stateEvents[..n - 1];
      p.(stateEvents := rest, state := if |rest| > 0 then rest[|rest| - 1].state else p.stateOnStart)
    else p
  }

  /** PopState as the source writes it: List.Remove of the newest event takes out the FIRST
      entry equal to it, which is an older one whenever the same state was entered twice at
      the same time. */
  function PopStateAsWritten(p: ParticleLog, time: real): (r: ParticleLog)
    ensures r == p.(state := r.state, stateEvents := r.stateEvents)
    ensures |p.stateEvents| > 0 && time <= p.stateEvents[|p.stateEvents| - 1].time ==>
              r.stateEvents == Lists.RemoveFirst(p.stateEvents, p.stateEvents[|p.stateEvents| - 1])
  {
    var n := |p.stateEvents|;
    if n > 0 && time <= p.stateEvents[n - 1].time then
      var rest := Lists.RemoveFirst(p.stateEvents, p.stateEvents[n - 1]);
      p.(stateEvents := rest, state := if |rest| > 0 then rest[|rest| - 1].state else p.stateOnStart)
    else p
  }

  /** A state change undone: pushing a new state and rewinding to its time gives back the
      state and the stack from before. */
  lemma PopUndoesSetState(p: ParticleLog, s: PlayState, f: Frame)
    requires Consistent(p) && f.timeScale > 0.0 && p.state != s
    ensures var q := PopState(ForwardState(p, s, f), f.time);
            q.state == p.state && q.stateEvents == p.stateEvents
  {
    var pushed := ForwardState(p, s, f);
    assert pushed.stateEvents == p.stateEvents + [StateEvent(s, f.time)];
    assert pushed.stateEvents[..|pushed.stateEvents| - 1] == p.stateEvents;
  }

  /** The emission events the loop keeps: those not later than `t`, in their order. */
  function KeptEmissions(es: seq<EmissionEvent>, t: real): (r: seq<EmissionEvent>)
    ensures |r| <= |es|
  {
    if |es| == 0 then []
    else KeptEmissions(es[..|es| - 1], t) + (if es[|es| - 1].time > t then [] else [es[|es| - 1]])
  }

  /** Exactly the events not later than `t` survive. */
  lemma {:induction false} KeptEmissionsMembers(es: seq<EmissionEvent>, t: real)
    ensures forall e :: e in KeptEmissions(es, t) <==> e in es && e.time <= t
  {
    if |es| > 0 {
      KeptEmissionsMembers(es[..|es| - 1], t);
      assert es == es[..|es| - 1] + [es[|es| - 1]];
    }
  }

  /** Filtering distributes over concatenation, so the survivors keep their relative order. */
  lemma {:induction false} KeptEmissionsAppend(a: seq<EmissionEvent>, b: seq<EmissionEvent>, t: real)
    ensures KeptEmissions(a + b, t) == KeptEmissions(a, t) + KeptEmissions(b, t)
    decreases |b|
  {
    if |b| > 0 {
      var b' := b[..|b| - 1];
      assert (a + b)[..|a + b| - 1] == a + b';
      assert (a + b)[|a + b| - 1] == b[|b| - 1];
      KeptEmissionsAppend(a, b', t);
    } else {
      assert a + b == a;
    }
  }

  /** The loop of Update that walks the emission log from the end and removes, with
      RemoveAt, every event later than the simulation time. */
  method DropLaterEmissions(es: seq<EmissionEvent>, t: real) returns (r: seq<EmissionEvent>)
    ensures r == KeptEmissions(es, t)
    ensures forall e :: e in r <==> e in es && e.time <= t
  {
    r := es;
    var i := |es|;
    while i > 0
      invariant 0 <= i <= |es|
      invariant r == es[..i] + KeptEmissions(es[i..], t)
    {
      i := i - 1;
      assert es[i..] == [es[i]] + es[i + 1..];
      KeptEmissionsAppend([es[i]], es[i + 1..], t);
      assert KeptEmissions([es[i]], t) == (if es[i].time > t then [] else [es[i]]);
      assert r[..i] == es[..i];
      if r[i].time > t {
        r := r[..i] + r[i + 1..];
      }
      assert es[..i + 1] == es[..i] + [es[i]];
    }
    assert es[0..] == es;
    KeptEmissionsMembers(es, t);
  }

  /** The rewinding part of Update: while time runs backward, pop at most one state event
      (the newest, once the timeline's time is back at or before it) and drop the emission
      events later than the simulation time. Nothing changes otherwise. */
  method Rewind(p: ParticleLog, f: Frame) returns (r: ParticleLog)
    ensures f.timeScale >= 0.0 ==> r == p
    ensures f.timeScale < 0.0 ==>
              && r.stateEvents == PopState(p, f.time).stateEvents && r.state == PopState(p, f.time).state
              && r.emissionEvents == KeptEmissions(p.emissionEvents, p.absoluteSimulationTime)
              && r == p.(state := r.state, stateEvents := r.stateEvents, emissionEvents := r.emissionEvents)
    ensures Consistent(p) ==> Consistent(r)
  {
    if f.timeScale < 0.0 {
      r := PopState(p, f.time);
      var kept := DropLaterEmissions(r.emissionEvents, r.absoluteSimulationTime);
      r := r.(emissionEvents := kept);
    } else {
      r := p;
    }
  }

  /** The same part of Update with the state stack popped as the source writes it. */
  method RewindAsWritten(p: ParticleLog, f: Frame) returns (r: ParticleLog)
    ensures f.timeScale >= 0.0 ==> r == p
    ensures f.timeScale < 0.0 ==>
              && r.stateEvents == PopStateAsWritten(p, f.time).stateEvents && r.state == PopStateAsWritten(p, f.time).state
              && r.emissionEvents == KeptEmissions(p.emissionEvents, p.absoluteSimulationTime)
  {
    if f.timeScale < 0.0 {
      r := PopStateAsWritten(p, f.time);
      var kept := DropLaterEmissions(r.emissionEvents, r.absoluteSimulationTime);
      r := r.(emissionEvents := kept);
    } else {
      r := p;
    }
  }

  /** Play, Pause and Play again within one frame at time 1, then one frame of rewind: as
      written the system comes back Playing with a Paused event left on top of a Playing one
      underneath, where undoing the last change should leave it Paused. */
  lemma PopStateAsWrittenRestoresWrongState()
    ensures var f := Frame(1.0, 1.0);
            var p := PlaySystem(PauseSystem(PlaySystem(CopyProperties(false, true, f).value, f), f), f);
            && p.stateEvents == [StateEvent(Stopped, 1.0), StateEvent(Playing, 1.0), StateEvent(Paused, 1.0), StateEvent(Playing, 1.0)]
            && PopStateAsWritten(p, 1.0).state == Playing
            && PopState(p, 1.0).state == Paused
  {
    var f := Frame(1.0, 1.0);
    var p := PlaySystem(PauseSystem(PlaySystem(CopyProperties(false, true, f).value, f), f), f);
    PlayPausePlayStack(f);
    PopReplayedPlayAsWritten(p);
    PopReplayedPlay(p);
  }

  /** The stack after the Play, Pause, Play sequence at time 1. */
  lemma PlayPausePlayStack(f: Frame)
    requires f == Frame(1.0, 1.0)
    ensures var p := PlaySystem(PauseSystem(PlaySystem(CopyProperties(false, true, f).value, f), f), f);
            p.stateEvents == [StateEvent(Stopped, 1.0), StateEvent(Playing, 1.0), StateEvent(Paused, 1.0), StateEvent(Playing, 1.0)]
  {
    var p0 := CopyProperties(false, true, f).value;
    assert p0.state == Stopped && p0.stateEvents == [StateEvent(Stopped, 1.0)];
    var p1 := PlaySystem(p0, f);
    assert p1.stateEvents == [StateEvent(Stopped, 1.0), StateEvent(Playing, 1.0)];
    var p2 := PauseSystem(p1, f);
    assert p2.stateEvents == [StateEvent(Stopped, 1.0), StateEvent(Playing, 1.0), StateEvent(Paused, 1.0)];
  }

  /** Popping that stack as written: List.Remove takes out the older Playing entry. */
  lemma PopReplayedPlayAsWritten(p: ParticleLog)
    requires p.stateEvents == [StateEvent(Stopped, 1.0), StateEvent(Playing, 1.0), StateEvent(Paused, 1.0), StateEvent(Playing, 1.0)]
    ensures PopStateAsWritten(p, 1.0).state == Playing
  {
    var e, top := p.stateEvents, StateEvent(Playing, 1.0);
    var rest := [StateEvent(Stopped, 1.0), StateEvent(Paused, 1.0), StateEvent(Playing, 1.0)];
    assert e[|e| - 1] == top;
    assert e == [StateEvent(Stopped, 1.0)] + [top] + rest[1..];
    Lists.RemoveFirstAfter([StateEvent(Stopped, 1.0)], top, rest[1..]);
  }

  /** Popping that stack with the newest entry taken off leaves it Paused. */
  lemma PopReplayedPlay(p: ParticleLog)
    requires p.stateEvents == [StateEvent(Stopped, 1.0), StateEvent(Playing, 1.0), StateEvent(Paused, 1.0), StateEvent(Playing, 1.0)]
    ensures PopState(p, 1.0).state == Paused
  {
    var e := p.stateEvents;
    assert e[|e| - 1].time == 1.0;
    assert PopState(p, 1.0).stateEvents == e[..3];
  }


}
