/** AreaClock.cs: a clock that affects the timelines inside an area. It remembers where each
    timeline entered; each timeline in turn lists the area clocks it is in. Spatial queries
    (positions, colliders, transforms) are inputs: the PointToEdge scale and the distance
    from an entry point are given, and AnimationCurve.Evaluate is an arbitrary function. */
module AreaClocks {
  import opened Wrappers
  import opened Handles
  import opened Mathf
  import opened Lists
  import Clocks

  /** AreaClockMode. */
  datatype AreaClockMode = Instant | PointToEdge | DistanceFromEntry

  /** The area-clock part of the component; `timeScale` is the scale its Clock computed. */
  datatype AreaClock = AreaClock(
    timeScale: real,
    mode: AreaClockMode,
    innerBlend: Clocks.ClockBlend,
    padding: real,
    within: map<TimelineId, Vector3>)

  /** The two sides of the occupancy relation: the area clocks by handle (a handle with no
      entry is a destroyed clock) and, per timeline, its `areaClocks` list. */
  datatype Scene = Scene(areas: map<AreaId, AreaClock>, areaClocks: map<TimelineId, seq<AreaId>>)

  /** A timeline's areaClocks list; a timeline never captured has an empty one. */
  function ListOf(s: Scene, t: TimelineId): seq<AreaId> {
    if t in s.areaClocks then s.areaClocks[t] else []
  }

  /** The two sides agree: a timeline is within a live area clock exactly when that clock is
      in the timeline's list. */
  ghost predicate Linked(s: Scene) {
    forall a, t :: a in s.areas ==> (t in s.areas[a].within <==> a in ListOf(s, t))
  }

  /** No timeline lists the same area clock twice. */
  predicate NoDuplicates(s: Scene) {
    forall t :: t in s.areaClocks ==> NoDup(s.areaClocks[t])
  }

  // ---------------------------------------------------------------------------------------
  // Occupancy

  /** Capture: remember the entry point unless the timeline is already within, and add the
      clock to the timeline's list unless it is already there. */
  function Capture(s: Scene, self: AreaId, timeline: Option<TimelineId>, entry: Vector3): (r: Result<Scene>)
    requires self in s.areas
    ensures r.Err? <==> timeline.None?
    ensures r.Err? ==> r.error == ArgumentNull("timeline")
    ensures r.Ok? ==> r.value.areas.Keys == s.areas.Keys
    ensures r.Ok? ==> forall a :: a in s.areas && a != self ==> r.value.areas[a] == s.areas[a]
    ensures r.Ok? ==> var t, before, after := timeline.value, s.areas[self], r.value.areas[self];
              && after == before.(within := after.within)
              && after.within.Keys == before.within.Keys + {t}
              && (forall u :: u in before.within ==> after.within[u] == before.within[u])
              && (t !in before.within ==> after.within[t] == entry)
    ensures r.Ok? ==> forall u :: self in ListOf(r.value, u) <==> self in ListOf(s, u) || u == timeline.value
    ensures r.Ok? ==> forall u :: u != timeline.value ==> ListOf(r.value, u) == ListOf(s, u)
    ensures r.Ok? ==> forall a :: a != self ==> (a in ListOf(r.value, timeline.value) <==> a in ListOf(s, timeline.value))
    ensures r.Ok? && NoDup(ListOf(s, timeline.value)) ==> NoDup(ListOf(r.value, timeline.value))
  {
    if timeline.None? then Err(ArgumentNull("timeline"))
    else
      var t, area := timeline.value, s.areas[self];
      var within := if t in area.within then area.within else area.within[t := entry];
      Ok(Scene(s.areas[self := area.(within := within)], s.areaClocks[t := AddOnce(ListOf(s, t), self)]))
  }

  /** Release: forget the timeline and take the clock out of its list. */
  function Release(s: Scene, self: AreaId, timeline: Option<TimelineId>): (r: Result<Scene>)
    requires self in s.areas
    ensures r.Err? <==> timeline.None?
    ensures r.Err? ==> r.error == ArgumentNull("timeline")
    ensures r.Ok? ==> r.value.areas.Keys == s.areas.Keys
    ensures r.Ok? ==> forall a :: a in s.areas && a != self ==> r.value.areas[a] == s.areas[a]
    ensures r.Ok? ==> var t, before, after := timeline.value, s.areas[self], r.value.areas[self];
              && after == before.(within := after.within)
              && after.within.Keys == before.within.Keys - {t}
              && (forall u :: u in after.within ==> after.within[u] == before.within[u])
    ensures r.Ok? ==> ListOf(r.value, timeline.value) == RemoveFirst(ListOf(s, timeline.value), self)
    ensures r.Ok? ==> forall u :: u != timeline.value ==> ListOf(r.value, u) == ListOf(s, u)
  {
    if timeline.None? then Err(ArgumentNull("timeline"))
    else
      var t, area := timeline.value, s.areas[self];
      Ok(Scene(s.areas[self := area.(within := area.within - {t})],
               s.areaClocks[t := RemoveFirst(ListOf(s, t), self)]))
  }

  /** ReleaseAll: take the clock out of the list of every timeline within it, then forget
      them all. */
  function ReleaseAll(s: Scene, self: AreaId): (r: Scene)
    requires self in s.areas
    ensures r.areas.Keys == s.areas.Keys
    ensures forall a :: a in s.areas && a != self ==> r.areas[a] == s.areas[a]
    ensures r.areas[self] == s.areas[self].(within := map[])
    ensures forall u :: u in s.areas[self].within ==> ListOf(r, u) == RemoveFirst(ListOf(s, u), self)
    ensures forall u :: u !in s.areas[self].within ==> ListOf(r, u) == ListOf(s, u)
  {
    var area := s.areas[self];
    var lists := map u | u in s.areaClocks ::
      if u in area.within then RemoveFirst(s.areaClocks[u], self) else s.areaClocks[u];
    Scene(s.areas[self := area.(within := map[])], lists)
  }

  /** Capturing a timeline that is already within changes nothing, whatever the new entry
      point: the first entry point is kept. */
  lemma CaptureIsIdempotent(s: Scene, self: AreaId, t: TimelineId, entry: Vector3, again: Vector3)
    requires self in s.areas
    ensures var once := Capture(s, self, Some(t), entry).value;
            Capture(once, self, Some(t), again) == Ok(once)
  {
    var once := Capture(s, self, Some(t), entry).value;
    assert once.areas[self].within == once.areas[self].within;
    assert once.areas[self := once.areas[self]] == once.areas;
    assert once.areaClocks[t := AddOnce(ListOf(once, t), self)] == once.areaClocks;
  }

  /** Releasing twice is the same as releasing once, in a scene without duplicate entries. */
  lemma ReleaseIsIdempotent(s: Scene, self: AreaId, t: TimelineId)
    requires self in s.areas
    requires NoDup(ListOf(s, t))
    ensures var once := Release(s, self, Some(t)).value;
            Release(once, self, Some(t)) == Ok(once)
  {
    var once := Release(s, self, Some(t)).value;
    var l := ListOf(once, t);
    assert RemoveFirst(l, self) == l by {
      RemoveFirstNoDup(ListOf(s, t), self);
    }
    var area := once.areas[self];
    assert area.(within := area.within - {t}) == area;
    assert once.areas[self := area] == once.areas;
    assert once.areaClocks[t := l] == once.areaClocks;
  }

  lemma CapturePreservesInvariants(s: Scene, self: AreaId, t: TimelineId, entry: Vector3)
    requires self in s.areas
    requires Linked(s) && NoDuplicates(s)
    ensures Linked(Capture(s, self, Some(t), entry).value)
    ensures NoDuplicates(Capture(s, self, Some(t), entry).value)
  {
    var r := Capture(s, self, Some(t), entry).value;
    assert NoDuplicates(r) by {
      forall u | u in r.areaClocks ensures NoDup(r.areaClocks[u]) {
        assert r.areaClocks[u] == ListOf(r, u);
      }
    }
    assert Linked(r) by {
      forall a, u | a in r.areas ensures u in r.areas[a].within <==> a in ListOf(r, u) {
        assert u in s.areas[a].within <==> a in ListOf(s, u);
      }
    }
  }

  lemma ReleasePreservesInvariants(s: Scene, self: AreaId, t: TimelineId)
    requires self in s.areas
    requires Linked(s) && NoDuplicates(s)
    ensures Linked(Release(s, self, Some(t)).value)
    ensures NoDuplicates(Release(s, self, Some(t)).value)
    ensures self !in ListOf(Release(s, self, Some(t)).value, t)
  {
    assert NoDup(ListOf(s, t));
    ReleaseKeepsNoDuplicates(s, self, t);
    ReleaseKeepsLinked(s, self, t);
  }

  lemma ReleaseKeepsNoDuplicates(s: Scene, self: AreaId, t: TimelineId)
    requires self in s.areas
    requires NoDuplicates(s) && NoDup(ListOf(s, t))
    ensures NoDuplicates(Release(s, self, Some(t)).value)
    ensures self !in ListOf(Release(s, self, Some(t)).value, t)
  {
    var r := Release(s, self, Some(t)).value;
    assert NoDup(ListOf(r, t)) && self !in ListOf(r, t) by {
      RemoveFirstNoDup(ListOf(s, t), self);
    }
    forall u | u in r.areaClocks ensures NoDup(r.areaClocks[u]) {
      assert r.areaClocks[u] == ListOf(r, u);
    }
  }

  lemma ReleaseKeepsLinked(s: Scene, self: AreaId, t: TimelineId)
    requires self in s.areas
    requires Linked(s) && NoDup(ListOf(s, t))
    ensures Linked(Release(s, self, Some(t)).value)
  {
    var r := Release(s, self, Some(t)).value;
    assert forall y :: y in ListOf(r, t) <==> y in ListOf(s, t) && y != self by {
      RemoveFirstNoDup(ListOf(s, t), self);
    }
    forall a, u | a in r.areas ensures u in r.areas[a].within <==> a in ListOf(r, u) {
      assert u in s.areas[a].within <==> a in ListOf(s, u);
      if u != t {
        assert ListOf(r, u) == ListOf(s, u);
      } else if a != self {
        assert r.areas[a] == s.areas[a];
      }
    }
  }

  /** After ReleaseAll, no timeline is within the clock and no timeline lists it. */
  lemma ReleaseAllDetachesEverything(s: Scene, self: AreaId)
    requires self in s.areas
    requires Linked(s) && NoDuplicates(s)
    ensures Linked(ReleaseAll(s, self)) && NoDuplicates(ReleaseAll(s, self))
    ensures forall u :: self !in ListOf(ReleaseAll(s, self), u)
  {
    var r := ReleaseAll(s, self);
    forall u ensures self !in ListOf(r, u) && NoDup(ListOf(r, u))
      && (forall a :: a != self ==> (a in ListOf(r, u) <==> a in ListOf(s, u)))
    {
      RemoveFirstNoDup(ListOf(s, u), self);
    }
    forall u | u in r.areaClocks ensures NoDup(r.areaClocks[u]) {
      assert r.areaClocks[u] == ListOf(r, u);
    }
  }

  // ---------------------------------------------------------------------------------------
  // The scale an area clock applies to a timeline

  /** The scale at which the clock's effect vanishes for its inner blend. */
  function NoEffect(blend: Clocks.ClockBlend): real {
    if blend == Clocks.Multiplicative then 1.0 else 0.0
  }

  /** DistanceFromEntryTimeScale. `distance` is the length of the path from the entry point
      to the timeline, a vector magnitude. Inside the padding the effect fades in along the
      curve; beyond it the full scale applies. */
  function DistanceFromEntryTimeScale(area: AreaClock, curve: real -> real, distance: real): (r: Result<real>)
    requires distance >= 0.0
    ensures r.Err? <==> area.padding < 0.0
    ensures r.Err? ==> r.error == Chronos(NegativePadding)
    ensures r.Ok? && distance >= area.padding ==> r.value == area.timeScale
    ensures r.Ok? && distance < area.padding ==>
              r.value == Lerp(NoEffect(area.innerBlend), area.timeScale, curve(1.0 - distance / area.padding))
    ensures r.Ok? ==> Min(NoEffect(area.innerBlend), area.timeScale) <= r.value <= Max(NoEffect(area.innerBlend), area.timeScale)
  {
    if area.padding < 0.0 then Err(Chronos(NegativePadding))
    else if distance < area.padding then
      Ok(Lerp(NoEffect(area.innerBlend), area.timeScale, curve(1.0 - distance / area.padding)))
    else Ok(area.timeScale)
  }

  /** With the default ease-in-out curve (1 at the entry, 0 at the padding), a timeline just
      entering feels no effect and one a padding away feels all of it. */
  lemma FalloffEndPoints(area: AreaClock, curve: real -> real)
    requires area.padding > 0.0
    requires curve(1.0) <= 0.0
    ensures DistanceFromEntryTimeScale(area, curve, 0.0) == Ok(NoEffect(area.innerBlend))
    ensures DistanceFromEntryTimeScale(area, curve, area.padding) == Ok(area.timeScale)
  {
  }

  /** IAreaClock.TimeScale. `pointToEdge` is what the collider-specific PointToEdgeTimeScale
      yields for the timeline's position and `distanceFrom` gives the distance from an entry
      point to it. The entry point is looked up before the padding is checked. */
  function TimeScale(area: AreaClock, timeline: Option<TimelineId>, curve: real -> real,
                     pointToEdge: real, distanceFrom: Vector3 -> real): (r: Result<real>)
    requires forall v :: distanceFrom(v) >= 0.0
    ensures timeline.None? ==> r == Err(ArgumentNull("timeline"))
    ensures timeline.Some? && area.mode == Instant ==> r == Ok(area.timeScale)
    ensures timeline.Some? && area.mode == PointToEdge ==> r == Ok(pointToEdge)
    ensures timeline.Some? && area.mode == DistanceFromEntry && timeline.value !in area.within ==> r == Err(KeyNotFound)
    ensures timeline.Some? && area.mode == DistanceFromEntry && timeline.value in area.within ==>
              r == DistanceFromEntryTimeScale(area, curve, distanceFrom(area.within[timeline.value]))
  {
    if timeline.None? then Err(ArgumentNull("timeline"))
    else match area.mode
      case Instant => Ok(area.timeScale)
      case PointToEdge => Ok(pointToEdge)
      case DistanceFromEntry =>
        if timeline.value !in area.within then Err(KeyNotFound)
        else DistanceFromEntryTimeScale(area, curve, distanceFrom(area.within[timeline.value]))
  }

  /** A captured timeline never hits the missing-entry error. */
  lemma CapturedHasEntry(s: Scene, a: AreaId, t: TimelineId, curve: real -> real,
                         pointToEdge: real, distanceFrom: Vector3 -> real)
    requires Linked(s) && a in s.areas && a in ListOf(s, t)
    requires forall v :: distanceFrom(v) >= 0.0
    ensures TimeScale(s.areas[a], Some(t), curve, pointToEdge, distanceFrom) != Err(KeyNotFound)
  {
  }
}
