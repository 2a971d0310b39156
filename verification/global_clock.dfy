/** GlobalClock.cs: the registration bookkeeping of a global clock, i.e. its key and the
    sets of child clocks and timelines that observe it. Its own time scale is that of the
    Clock it extends (module Clocks). */
module GlobalClocks {
  import opened Wrappers
  import opened Handles

  datatype GlobalClock = GlobalClock(key: Option<string>, clocks: set<ClockId>, timelines: set<TimelineId>)

  /** The constructor: both child sets start empty. */
  function New(key: Option<string>): GlobalClock {
    GlobalClock(key, {}, {})
  }

  function RegisterTimeline(g: GlobalClock, timeline: Option<TimelineId>): (r: Result<GlobalClock>)
    ensures r.Err? <==> timeline.None?
    ensures r.Err? ==> r.error == ArgumentNull("timeline")
    ensures r.Ok? ==> timeline.value in r.value.timelines
    ensures r.Ok? ==> forall t :: t != timeline.value ==> (t in r.value.timelines <==> t in g.timelines)
    ensures r.Ok? ==> r.value.clocks == g.clocks && r.value.key == g.key
  {
    if timeline.None? then Err(ArgumentNull("timeline"))
    else Ok(g.(timelines := g.timelines + {timeline.value}))
  }

  function UnregisterTimeline(g: GlobalClock, timeline: Option<TimelineId>): (r: Result<GlobalClock>)
    ensures r.Err? <==> timeline.None?
    ensures r.Err? ==> r.error == ArgumentNull("timeline")
    ensures r.Ok? ==> timeline.value !in r.value.timelines
    ensures r.Ok? ==> forall t :: t != timeline.value ==> (t in r.value.timelines <==> t in g.timelines)
    ensures r.Ok? ==> r.value.clocks == g.clocks && r.value.key == g.key
  {
    if timeline.None? then Err(ArgumentNull("timeline"))
    else Ok(g.(timelines := g.timelines - {timeline.value}))
  }

  function RegisterClock(g: GlobalClock, clock: Option<ClockId>): (r: Result<GlobalClock>)
    ensures r.Err? <==> clock.None?
    ensures r.Err? ==> r.error == ArgumentNull("clock")
    ensures r.Ok? ==> clock.value in r.value.clocks
    ensures r.Ok? ==> forall c :: c != clock.value ==> (c in r.value.clocks <==> c in g.clocks)
    ensures r.Ok? ==> r.value.timelines == g.timelines && r.value.key == g.key
  {
    if clock.None? then Err(ArgumentNull("clock"))
    else Ok(g.(clocks := g.clocks + {clock.value}))
  }

  function UnregisterClock(g: GlobalClock, clock: Option<ClockId>): (r: Result<GlobalClock>)
    ensures r.Err? <==> clock.None?
    ensures r.Err? ==> r.error == ArgumentNull("clock")
    ensures r.Ok? ==> clock.value !in r.value.clocks
    ensures r.Ok? ==> forall c :: c != clock.value ==> (c in r.value.clocks <==> c in g.clocks)
    ensures r.Ok? ==> r.value.timelines == g.timelines && r.value.key == g.key
  {
    if clock.None? then Err(ArgumentNull("clock"))
    else Ok(g.(clocks := g.clocks - {clock.value}))
  }

  /** HashSet.Add semantics: registering a timeline twice is the same as registering it once. */
  lemma RegisterTimelineIdempotent(g: GlobalClock, t: TimelineId)
    ensures RegisterTimeline(RegisterTimeline(g, Some(t)).value, Some(t)) == RegisterTimeline(g, Some(t))
  {
  }

  /** Unregistering a timeline that is not registered changes nothing. */
  lemma UnregisterAbsentTimeline(g: GlobalClock, t: TimelineId)
    requires t !in g.timelines
    ensures UnregisterTimeline(g, Some(t)) == Ok(g)
  {
    assert g.timelines - {t} == g.timelines;
  }

  /** Registering then unregistering a fresh timeline restores the clock. */
  lemma RegisterUnregisterTimeline(g: GlobalClock, t: TimelineId)
    requires t !in g.timelines
    ensures UnregisterTimeline(RegisterTimeline(g, Some(t)).value, Some(t)) == Ok(g)
  {
    assert g.timelines + {t} - {t} == g.timelines;
  }

  lemma RegisterClockIdempotent(g: GlobalClock, c: ClockId)
    ensures RegisterClock(RegisterClock(g, Some(c)).value, Some(c)) == RegisterClock(g, Some(c))
  {
  }

  lemma RegisterUnregisterClock(g: GlobalClock, c: ClockId)
    requires c !in g.clocks
    ensures UnregisterClock(RegisterClock(g, Some(c)).value, Some(c)) == Ok(g)
  {
    assert g.clocks + {c} - {c} == g.clocks;
  }

  /** A fresh global clock has its key and no children, so unregistering anything from it
      is a no-op. */
  lemma NewHasNoChildren(key: Option<string>, c: ClockId, t: TimelineId)
    ensures New(key).key == key && New(key).clocks == {} && New(key).timelines == {}
    ensures UnregisterClock(New(key), Some(c)) == Ok(New(key))
    ensures UnregisterTimeline(New(key), Some(t)) == Ok(New(key))
  {
    var noClocks: set<ClockId> := {};
    var noTimelines: set<TimelineId> := {};
    assert noClocks - {c} == noClocks;
    assert noTimelines - {t} == noTimelines;
  }
}
