/** The occurrence scheduler of Timeline.cs: occurrences are events pinned to a time on the
    timeline that fire forward when time passes them and backward when time rewinds past
    them. The timeline keeps them in a list and caches two cursors, the next occurrence to
    fire forward and the next to fire backward. Occurrence objects are handles into `info`,
    which holds their current time and repeatable flag; the Forward()/Backward() callbacks
    are recorded in the `fired` log. */
module Occurrences {
  import opened Wrappers
  import opened Handles
  import opened Lists

  datatype Occurrence = Occurrence(time: real, repeatable: bool)

  datatype Firing = Forward(id: OccurrenceId) | Backward(id: OccurrenceId)

  datatype Schedule = Schedule(
    occurrences: seq<OccurrenceId>,
    info: map<OccurrenceId, Occurrence>,
    nextForward: Option<OccurrenceId>,
    nextBackward: Option<OccurrenceId>,
    fired: seq<Firing>)

  /** The empty schedule of a new or reset timeline. */
  function EmptySchedule(): Schedule {
    Schedule([], map[], None, None, [])
  }

  /** Every occurrence the schedule refers to exists. */
  predicate Known(s: Schedule) {
    && (forall o :: o in s.occurrences ==> o in s.info)
    && (s.nextForward.Some? ==> s.nextForward.value in s.info)
    && (s.nextBackward.Some? ==> s.nextBackward.value in s.info)
  }

  function TimeOf(s: Schedule, o: OccurrenceId): real
    requires o in s.info
  {
    s.info[o].time
  }

  // ---------------------------------------------------------------------------------------
  // Nearest-occurrence search

  /** OccurrenceAfter over a list: the earliest non-ignored occurrence at or after t, the
      first in list order among equally early ones, or None when there is none. */
  function AfterIn(xs: seq<OccurrenceId>, info: map<OccurrenceId, Occurrence>, t: real, ignored: set<OccurrenceId>)
    : (r: Option<OccurrenceId>)
    requires forall o :: o in xs ==> o in info
    ensures EarliestAfter(xs, info, t, ignored, r)
    decreases |xs|
  {
    if |xs| == 0 then None
    else
      var init := xs[..|xs| - 1];
      var o := xs[|xs| - 1];
      assert forall x :: x in xs <==> x in init || x == o by { assert xs == init + [o]; }
      var prev := AfterIn(init, info, t, ignored);
      if info[o].time >= t && o !in ignored && (prev.None? || info[o].time < info[prev.value].time) then
        AfterTake(xs, info, t, ignored, prev);
        Some(o)
      else
        AfterKeep(xs, info, t, ignored, prev);
        prev
  }

  /** The four properties AfterIn promises, for a candidate answer `r`. */
  ghost predicate EarliestAfter(xs: seq<OccurrenceId>, info: map<OccurrenceId, Occurrence>, t: real,
                                ignored: set<OccurrenceId>, r: Option<OccurrenceId>)
    requires forall o :: o in xs ==> o in info
  {
    && (r.Some? ==> r.value in xs && info[r.value].time >= t && r.value !in ignored)
    && (r.None? <==> forall o :: o in xs ==> info[o].time < t || o in ignored)
    && (r.Some? ==> forall o :: o in xs && info[o].time >= t && o !in ignored ==> info[r.value].time <= info[o].time)
    && (r.Some? ==> forall j :: 0 <= j < IndexOf(xs, r.value) ==>
          !(info[xs[j]].time >= t && xs[j] !in ignored && info[xs[j]].time <= info[r.value].time))
  }

  /** AfterIn's step when the last element is strictly earlier than the answer for the rest. */
  lemma AfterTake(xs: seq<OccurrenceId>, info: map<OccurrenceId, Occurrence>, t: real, ignored: set<OccurrenceId>,
                  prev: Option<OccurrenceId>)
    requires |xs| > 0 && forall o :: o in xs ==> o in info
    requires EarliestAfter(xs[..|xs| - 1], info, t, ignored, prev)
    requires var o := xs[|xs| - 1];
             info[o].time >= t && o !in ignored && (prev.None? || info[o].time < info[prev.value].time)
    ensures EarliestAfter(xs, info, t, ignored, Some(xs[|xs| - 1]))
  {
    var init, o := xs[..|xs| - 1], xs[|xs| - 1];
    assert forall x :: x in xs <==> x in init || x == o by { assert xs == init + [o]; }
    assert o !in init;
    LastIsFirstIndex(xs, o);
    assert forall j :: 0 <= j < |xs| - 1 ==> xs[j] == init[j];
  }

  /** AfterIn's step when the answer for the rest stands. */
  lemma AfterKeep(xs: seq<OccurrenceId>, info: map<OccurrenceId, Occurrence>, t: real, ignored: set<OccurrenceId>,
                  prev: Option<OccurrenceId>)
    requires |xs| > 0 && forall o :: o in xs ==> o in info
    requires EarliestAfter(xs[..|xs| - 1], info, t, ignored, prev)
    requires var o := xs[|xs| - 1];
             !(info[o].time >= t && o !in ignored && (prev.None? || info[o].time < info[prev.value].time))
    ensures EarliestAfter(xs, info, t, ignored, prev)
  {
    var init, o := xs[..|xs| - 1], xs[|xs| - 1];
    assert forall x :: x in xs <==> x in init || x == o by { assert xs == init + [o]; }
    if prev.Some? {
      IndexOfInPrefix(xs, prev.value);
      assert forall j :: 0 <= j < |xs| - 1 ==> xs[j] == init[j];
    }
  }

  /** OccurrenceBefore over a list: the latest non-ignored occurrence at or before t, the
      first in list order among equally late ones, or None when there is none. */
  function BeforeIn(xs: seq<OccurrenceId>, info: map<OccurrenceId, Occurrence>, t: real, ignored: set<OccurrenceId>)
    : (r: Option<OccurrenceId>)
    requires forall o :: o in xs ==> o in info
    ensures LatestBefore(xs, info, t, ignored, r)
    decreases |xs|
  {
    if |xs| == 0 then None
    else
      var init := xs[..|xs| - 1];
      var o := xs[|xs| - 1];
      assert forall x :: x in xs <==> x in init || x == o by { assert xs == init + [o]; }
      var prev := BeforeIn(init, info, t, ignored);
      if info[o].time <= t && o !in ignored && (prev.None? || info[o].time > info[prev.value].time) then
        BeforeTake(xs, info, t, ignored, prev);
        Some(o)
      else
        BeforeKeep(xs, info, t, ignored, prev);
        prev
  }

  /** The four properties BeforeIn promises, for a candidate answer `r`. */
  ghost predicate LatestBefore(xs: seq<OccurrenceId>, info: map<OccurrenceId, Occurrence>, t: real,
                               ignored: set<OccurrenceId>, r: Option<OccurrenceId>)
    requires forall o :: o in xs ==> o in info
  {
    && (r.Some? ==> r.value in xs && info[r.value].time <= t && r.value !in ignored)
    && (r.None? <==> forall o :: o in xs ==> info[o].time > t || o in ignored)
    && (r.Some? ==> forall o :: o in xs && info[o].time <= t && o !in ignored ==> info[r.value].time >= info[o].time)
    && (r.Some? ==> forall j :: 0 <= j < IndexOf(xs, r.value) ==>
          !(info[xs[j]].time <= t && xs[j] !in ignored && info[xs[j]].time >= info[r.value].time))
  }

  /** BeforeIn's step when the last element is strictly later than the answer for the rest. */
  lemma BeforeTake(xs: seq<OccurrenceId>, info: map<OccurrenceId, Occurrence>, t: real, ignored: set<OccurrenceId>,
                   prev: Option<OccurrenceId>)
    requires |xs| > 0 && forall o :: o in xs ==> o in info
    requires LatestBefore(xs[..|xs| - 1], info, t, ignored, prev)
    requires var o := xs[|xs| - 1];
             info[o].time <= t && o !in ignored && (prev.None? || info[o].time > info[prev.value].time)
    ensures LatestBefore(xs, info, t, ignored, Some(xs[|xs| - 1]))
  {
    var init, o := xs[..|xs| - 1], xs[|xs| - 1];
    assert forall x :: x in xs <==> x in init || x == o by { assert xs == init + [o]; }
    assert o !in init;
    LastIsFirstIndex(xs, o);
    assert forall j :: 0 <= j < |xs| - 1 ==> xs[j] == init[j];
  }

  /** BeforeIn's step when the answer for the rest stands. */
  lemma BeforeKeep(xs: seq<OccurrenceId>, info: map<OccurrenceId, Occurrence>, t: real, ignored: set<OccurrenceId>,
                   prev: Option<OccurrenceId>)
    requires |xs| > 0 && forall o :: o in xs ==> o in info
    requires LatestBefore(xs[..|xs| - 1], info, t, ignored, prev)
    requires var o := xs[|xs| - 1];
             !(info[o].time <= t && o !in ignored && (prev.None? || info[o].time > info[prev.value].time))
    ensures LatestBefore(xs, info, t, ignored, prev)
  {
    var init, o := xs[..|xs| - 1], xs[|xs| - 1];
    assert forall x :: x in xs <==> x in init || x == o by { assert xs == init + [o]; }
    if prev.Some? {
      IndexOfInPrefix(xs, prev.value);
      assert forall j :: 0 <= j < |xs| - 1 ==> xs[j] == init[j];
    }
  }

  /** The first position of an element of the prefix is its first position in the whole list. */
  lemma IndexOfInPrefix(xs: seq<OccurrenceId>, x: OccurrenceId)
    requires |xs| > 0 && x in xs[..|xs| - 1]
    ensures IndexOf(xs, x) == IndexOf(xs[..|xs| - 1], x)
  {
    assert forall k :: 0 <= k < |xs| - 1 ==> xs[..|xs| - 1][k] == xs[k];
  }

  /** When the last element does not occur earlier, its first position is the last one. */
  lemma LastIsFirstIndex(xs: seq<OccurrenceId>, x: OccurrenceId)
    requires |xs| > 0 && xs[|xs| - 1] == x
    ensures x !in xs[..|xs| - 1] ==> IndexOf(xs, x) == |xs| - 1
  {
    assert forall k :: 0 <= k < |xs| - 1 ==> xs[..|xs| - 1][k] == xs[k];
  }

  function After(s: Schedule, t: real, ignored: set<OccurrenceId>): (r: Option<OccurrenceId>)
    requires Known(s)
    ensures r.Some? ==> r.value in s.occurrences && r.value in s.info
  {
    AfterIn(s.occurrences, s.info, t, ignored)
  }

  function Before(s: Schedule, t: real, ignored: set<OccurrenceId>): (r: Option<OccurrenceId>)
    requires Known(s)
    ensures r.Some? ==> r.value in s.occurrences && r.value in s.info
  {
    BeforeIn(s.occurrences, s.info, t, ignored)
  }

  // ---------------------------------------------------------------------------------------
  // The cursor invariants

  /** No pending future occurrence is earlier than the forward cursor: moving forward, the
      cursor reaches every one of them in turn. */
  ghost predicate ForwardReady(s: Schedule, now: real)
    requires Known(s)
  {
    forall o :: o in s.occurrences && s.info[o].time > now ==>
      s.nextForward.Some? && s.info[s.nextForward.value].time <= s.info[o].time
  }

  /** No past occurrence is later than the backward cursor. */
  ghost predicate BackwardReady(s: Schedule, now: real)
    requires Known(s)
  {
    forall o :: o in s.occurrences && s.info[o].time < now ==>
      s.nextBackward.Some? && s.info[s.nextBackward.value].time >= s.info[o].time
  }

  // ---------------------------------------------------------------------------------------
  // Placement and scheduling

  /** PlaceOccurence, for an occurrence whose time is already t. At the current time it fires
      at once, forward unless time runs backward, and becomes the cursor for the other
      direction; in the future or the past it becomes the cursor of that side if it is
      nearer than the current one. */
  function Place(s: Schedule, o: OccurrenceId, t: real, now: real, timeScale: real): (r: Schedule)
    requires Known(s) && o in s.info && s.info[o].time == t
    ensures Known(r)
    ensures r.occurrences == s.occurrences && r.info == s.info
    ensures t == now && timeScale >= 0.0 ==>
              r.fired == s.fired + [Forward(o)] && r.nextBackward == Some(o) && r.nextForward == s.nextForward
    ensures t == now && timeScale < 0.0 ==>
              r.fired == s.fired + [Backward(o)] && r.nextForward == Some(o) && r.nextBackward == s.nextBackward
    ensures t != now ==> r.fired == s.fired
    ensures t > now ==>
              && r.nextBackward == s.nextBackward
              && (r.nextForward == s.nextForward || r.nextForward == Some(o))
              && r.nextForward.Some? && TimeOf(r, r.nextForward.value) <= t
              && (s.nextForward.Some? ==> TimeOf(r, r.nextForward.value) <= TimeOf(s, s.nextForward.value))
    ensures t < now ==>
              && r.nextForward == s.nextForward
              && (r.nextBackward == s.nextBackward || r.nextBackward == Some(o))
              && r.nextBackward.Some? && TimeOf(r, r.nextBackward.value) >= t
              && (s.nextBackward.Some? ==> TimeOf(r, r.nextBackward.value) >= TimeOf(s, s.nextBackward.value))
  {
    if t == now then
      if timeScale >= 0.0 then s.(fired := s.fired + [Forward(o)], nextBackward := Some(o))
      else s.(fired := s.fired + [Backward(o)], nextForward := Some(o))
    else if t > now then
      if s.nextForward.None? || TimeOf(s, s.nextForward.value) > t then s.(nextForward := Some(o)) else s
    else
      if s.nextBackward.None? || TimeOf(s, s.nextBackward.value) < t then s.(nextBackward := Some(o)) else s
  }

  /** Schedule: set the occurrence's time and flag, append it to the list, place it. */
  function ScheduleAt(s: Schedule, o: OccurrenceId, t: real, repeatable: bool, now: real, timeScale: real): (r: Schedule)
    requires Known(s)
    ensures Known(r)
    ensures r.occurrences == s.occurrences + [o]
    ensures r.info == s.info[o := Occurrence(t, repeatable)]
    ensures t != now ==> r.fired == s.fired
    ensures t == now ==> r.fired == s.fired + [if timeScale >= 0.0 then Forward(o) else Backward(o)]
  {
    var added := s.(occurrences := s.occurrences + [o], info := s.info[o := Occurrence(t, repeatable)]);
    Place(added, o, t, now, timeScale)
  }

  /** Do: schedule at the current time, which fires the occurrence at once. */
  function Do(s: Schedule, o: OccurrenceId, repeatable: bool, now: real, timeScale: real): (r: Schedule)
    requires Known(s)
    ensures Known(r) && r.occurrences == s.occurrences + [o]
    ensures r.info[o] == Occurrence(now, repeatable)
    ensures r.fired == s.fired + [if timeScale >= 0.0 then Forward(o) else Backward(o)]
  {
    ScheduleAt(s, o, now, repeatable, now, timeScale)
  }

  /** Plan: schedule `delay` seconds ahead; only strictly positive delays are accepted. */
  function Plan(s: Schedule, o: OccurrenceId, delay: real, repeatable: bool, now: real, timeScale: real): (r: Result<Schedule>)
    requires Known(s)
    ensures r.Err? <==> delay <= 0.0
    ensures r.Err? ==> r.error == Chronos(PlanNotInFuture)
    ensures r.Ok? ==> Known(r.value) && r.value.occurrences == s.occurrences + [o]
    ensures r.Ok? ==> r.value.info[o] == Occurrence(now + delay, repeatable) && r.value.info[o].time > now
    ensures r.Ok? ==> r.value.fired == s.fired && r.value.nextBackward == s.nextBackward
  {
    if delay <= 0.0 then Err(Chronos(PlanNotInFuture))
    else Ok(ScheduleAt(s, o, now + delay, repeatable, now, timeScale))
  }

  /** Memory: schedule `-delay` seconds back; only strictly negative delays are accepted. */
  function Memory(s: Schedule, o: OccurrenceId, delay: real, repeatable: bool, now: real, timeScale: real): (r: Result<Schedule>)
    requires Known(s)
    ensures r.Err? <==> delay >= 0.0
    ensures r.Err? ==> r.error == Chronos(MemoryNotInPast)
    ensures r.Ok? ==> Known(r.value) && r.value.occurrences == s.occurrences + [o]
    ensures r.Ok? ==> r.value.info[o] == Occurrence(now + delay, repeatable) && r.value.info[o].time < now
    ensures r.Ok? ==> r.value.fired == s.fired && r.value.nextForward == s.nextForward
  {
    if delay >= 0.0 then Err(Chronos(MemoryNotInPast))
    else Ok(ScheduleAt(s, o, now + delay, repeatable, now, timeScale))
  }

  /** Scheduling a new occurrence keeps both cursor invariants. */
  lemma ScheduleKeepsCursorsReady(s: Schedule, o: OccurrenceId, t: real, repeatable: bool, now: real, timeScale: real)
    requires Known(s) && o !in s.info
    requires ForwardReady(s, now) && BackwardReady(s, now)
    ensures ForwardReady(ScheduleAt(s, o, t, repeatable, now, timeScale), now)
    ensures BackwardReady(ScheduleAt(s, o, t, repeatable, now, timeScale), now)
  {
    var r := ScheduleAt(s, o, t, repeatable, now, timeScale);
    forall x | x in r.occurrences && r.info[x].time > now
      ensures r.nextForward.Some? && r.info[r.nextForward.value].time <= r.info[x].time
    {
      if x != o {
        assert x in s.occurrences;
        assert s.nextForward.value != o;
      }
    }
    forall x | x in r.occurrences && r.info[x].time < now
      ensures r.nextBackward.Some? && r.info[r.nextBackward.value].time >= r.info[x].time
    {
      if x != o {
        assert x in s.occurrences;
        assert s.nextBackward.value != o;
      }
    }
  }

  // ---------------------------------------------------------------------------------------
  // Cancelling

  /** Cancel: an occurrence that is not scheduled is an error. Otherwise a cursor on it moves
      to the nearest other occurrence on its side, and its first entry leaves the list. */
  function Cancel(s: Schedule, o: OccurrenceId): (r: Result<Schedule>)
    requires Known(s)
    ensures r.Err? <==> o !in s.occurrences
    ensures r.Err? ==> r.error == Chronos(OccurrenceNotFound)
    ensures r.Ok? ==> Known(r.value)
    ensures r.Ok? ==> r.value.occurrences == RemoveFirst(s.occurrences, o)
    ensures r.Ok? ==> r.value.info == s.info && r.value.fired == s.fired
    ensures r.Ok? ==> r.value.nextForward != Some(o) && r.value.nextBackward != Some(o)
    ensures r.Ok? && s.nextForward != Some(o) ==> r.value.nextForward == s.nextForward
    ensures r.Ok? && s.nextBackward != Some(o) ==> r.value.nextBackward == s.nextBackward
  {
    if o !in s.occurrences then Err(Chronos(OccurrenceNotFound))
    else
      var nf := if s.nextForward == Some(o) then After(s, TimeOf(s, o), {o}) else s.nextForward;
      var nb := if s.nextBackward == Some(o) then Before(s, TimeOf(s, o), {o}) else s.nextBackward;
      var remaining := RemoveFirst(s.occurrences, o);
      assert forall x :: x in remaining ==> x in s.occurrences by {
        assert forall x :: x in remaining ==> multiset(remaining)[x] > 0;
      }
      Ok(s.(occurrences := remaining, nextForward := nf, nextBackward := nb))
  }

  /** TryCancel: false, with nothing changed, exactly when the occurrence is not scheduled. */
  function TryCancel(s: Schedule, o: OccurrenceId): (r: (bool, Schedule))
    requires Known(s)
    ensures r.0 <==> o in s.occurrences
    ensures !r.0 ==> r.1 == s
    ensures r.0 ==> Cancel(s, o) == Ok(r.1)
  {
    if o !in s.occurrences then (false, s) else (true, Cancel(s, o).value)
  }

  /** Cancelling keeps both cursor invariants when no occurrence is listed twice. */
  lemma CancelKeepsCursorsReady(s: Schedule, o: OccurrenceId, now: real)
    requires Known(s) && o in s.occurrences && NoDup(s.occurrences)
    requires ForwardReady(s, now) && BackwardReady(s, now)
    ensures ForwardReady(Cancel(s, o).value, now) && BackwardReady(Cancel(s, o).value, now)
  {
    RemoveFirstNoDup(s.occurrences, o);
    CancelKeepsForwardReady(s, o, now);
    CancelKeepsBackwardReady(s, o, now);
  }

  lemma CancelKeepsForwardReady(s: Schedule, o: OccurrenceId, now: real)
    requires Known(s) && o in s.occurrences
    requires forall x :: x in RemoveFirst(s.occurrences, o) ==> x in s.occurrences && x != o
    requires ForwardReady(s, now)
    ensures ForwardReady(Cancel(s, o).value, now)
  {
    var r := Cancel(s, o).value;
    forall x | x in r.occurrences && r.info[x].time > now
      ensures r.nextForward.Some? && r.info[r.nextForward.value].time <= r.info[x].time
    {
      assert x in s.occurrences && x != o;
    }
  }

  lemma CancelKeepsBackwardReady(s: Schedule, o: OccurrenceId, now: real)
    requires Known(s) && o in s.occurrences
    requires forall x :: x in RemoveFirst(s.occurrences, o) ==> x in s.occurrences && x != o
    requires BackwardReady(s, now)
    ensures BackwardReady(Cancel(s, o).value, now)
  {
    var r := Cancel(s, o).value;
    forall x | x in r.occurrences && r.info[x].time < now
      ensures r.nextBackward.Some? && r.info[r.nextBackward.value].time >= r.info[x].time
    {
      assert x in s.occurrences && x != o;
    }
  }

  // ---------------------------------------------------------------------------------------
  // Rescheduling

  /** Reschedule exactly as the source does it: set the new time, then place the occurrence
      as if it were new. A cursor already on the occurrence stays on it. */
  function RescheduleAsWritten(s: Schedule, o: OccurrenceId, t: real, now: real, timeScale: real): (r: Schedule)
    requires Known(s) && o in s.info
    ensures Known(r) && r.occurrences == s.occurrences
    ensures r.info == s.info[o := s.info[o].(time := t)]
    ensures t > now && s.nextForward == Some(o) ==> r.nextForward == Some(o)
  {
    var moved := s.(info := s.info[o := s.info[o].(time := t)]);
    Place(moved, o, t, now, timeScale)
  }

  /** A concrete schedule: A at 5 and B at 7, now 0, the forward cursor on A. */
  function TwoPending(): Schedule {
    Schedule([0, 1], map[0 := Occurrence(5.0, false), 1 := Occurrence(7.0, false)], Some(0), None, [])
  }

  /** Postponing A to 10 as written leaves the cursor on A, now later than B: moving forward,
      the timeline fires A at 10 and then looks only at or after 10, so B never fires. */
  lemma RescheduleAsWrittenSkipsOccurrence()
    ensures ForwardReady(TwoPending(), 0.0) && BackwardReady(TwoPending(), 0.0)
    ensures var r := RescheduleAsWritten(TwoPending(), 0, 10.0, 0.0, 1.0);
            && !ForwardReady(r, 0.0)
            && r.nextForward == Some(0)
            && After(r, 10.0, {0}) == None
  {
    var r := RescheduleAsWritten(TwoPending(), 0, 10.0, 0.0, 1.0);
    assert r.occurrences[1] == 1 && r.info[1].time == 7.0;
  }

  /** Reschedule, with the cursor repair Cancel performs: a cursor on the occurrence first
      moves to the nearest other occurrence on its side, then the occurrence is placed at its
      new time. */
  function Reschedule(s: Schedule, o: OccurrenceId, t: real, now: real, timeScale: real): (r: Schedule)
    requires Known(s) && o in s.info
    ensures Known(r) && r.occurrences == s.occurrences
    ensures r.info == s.info[o := s.info[o].(time := t)]
    ensures t != now ==> r.fired == s.fired
  {
    var nf := if s.nextForward == Some(o) then After(s, TimeOf(s, o), {o}) else s.nextForward;
    var nb := if s.nextBackward == Some(o) then Before(s, TimeOf(s, o), {o}) else s.nextBackward;
    var moved := s.(info := s.info[o := s.info[o].(time := t)], nextForward := nf, nextBackward := nb);
    Place(moved, o, t, now, timeScale)
  }

  /** The repaired Reschedule keeps both cursor invariants. */
  lemma RescheduleKeepsCursorsReady(s: Schedule, o: OccurrenceId, t: real, now: real, timeScale: real)
    requires Known(s) && o in s.info
    requires ForwardReady(s, now) && BackwardReady(s, now)
    ensures ForwardReady(Reschedule(s, o, t, now, timeScale), now)
    ensures BackwardReady(Reschedule(s, o, t, now, timeScale), now)
  {
    var r := Reschedule(s, o, t, now, timeScale);
    forall x | x in r.occurrences && r.info[x].time > now
      ensures r.nextForward.Some? && r.info[r.nextForward.value].time <= r.info[x].time
    {
      if x != o {
        assert x in s.occurrences && s.info[x].time > now;
      }
    }
    forall x | x in r.occurrences && r.info[x].time < now
      ensures r.nextBackward.Some? && r.info[r.nextBackward.value].time >= r.info[x].time
    {
      if x != o {
        assert x in s.occurrences && s.info[x].time < now;
      }
    }
  }

  /** On the example, the repaired Reschedule moves the cursor to B. */
  lemma RescheduleFixesExample()
    ensures Reschedule(TwoPending(), 0, 10.0, 0.0, 1.0).nextForward == Some(1)
  {
    var s := TwoPending();
    assert s.occurrences[1] == 1 && s.occurrences[0] == 0;
    assert IndexOf(s.occurrences, 1) == 1;
  }

  /** Postpone, as the source does it: reschedule the occurrence `delay` seconds after now.
      A positive delay fires nothing and leaves the backward cursor alone; a forward cursor
      on the occurrence stays on it, wherever the occurrence moves. */
  function Postpone(s: Schedule, o: OccurrenceId, delay: real, now: real, timeScale: real): (r: Schedule)
    requires Known(s) && o in s.info
    ensures Known(r) && r.occurrences == s.occurrences
    ensures r.info == s.info[o := s.info[o].(time := now + delay)]
    ensures delay > 0.0 ==> r.fired == s.fired && r.nextBackward == s.nextBackward
    ensures delay > 0.0 && s.nextForward == Some(o) ==> r.nextForward == Some(o)
    ensures delay == 0.0 ==> r.fired == s.fired + [if timeScale >= 0.0 then Forward(o) else Backward(o)]
  {
    RescheduleAsWritten(s, o, now + delay, now, timeScale)
  }

  /** Prepone, as the source does it: reschedule the occurrence `delay` seconds before now.
      A positive delay fires nothing and leaves the forward cursor alone; a backward cursor
      on the occurrence stays on it. */
  function Prepone(s: Schedule, o: OccurrenceId, delay: real, now: real, timeScale: real): (r: Schedule)
    requires Known(s) && o in s.info
    ensures Known(r) && r.occurrences == s.occurrences
    ensures r.info == s.info[o := s.info[o].(time := now - delay)]
    ensures delay > 0.0 ==> r.fired == s.fired && r.nextForward == s.nextForward
    ensures delay > 0.0 && s.nextBackward == Some(o) ==> r.nextBackward == Some(o)
    ensures delay == 0.0 ==> r.fired == s.fired + [if timeScale >= 0.0 then Forward(o) else Backward(o)]
  {
    RescheduleAsWritten(s, o, now - delay, now, timeScale)
  }

  /** Postponing with the repaired Reschedule: the same move, and both cursor invariants
      survive it. */
  function PostponeRepaired(s: Schedule, o: OccurrenceId, delay: real, now: real, timeScale: real): (r: Schedule)
    requires Known(s) && o in s.info
    ensures Known(r) && r.occurrences == s.occurrences
    ensures r.info == s.info[o := s.info[o].(time := now + delay)]
    ensures ForwardReady(s, now) && BackwardReady(s, now) ==> ForwardReady(r, now) && BackwardReady(r, now)
  {
    RescheduleKeepsCursorsReadyWhenReady(s, o, now + delay, now, timeScale);
    Reschedule(s, o, now + delay, now, timeScale)
  }

  /** Preponing with the repaired Reschedule, alike. */
  function PreponeRepaired(s: Schedule, o: OccurrenceId, delay: real, now: real, timeScale: real): (r: Schedule)
    requires Known(s) && o in s.info
    ensures Known(r) && r.occurrences == s.occurrences
    ensures r.info == s.info[o := s.info[o].(time := now - delay)]
    ensures ForwardReady(s, now) && BackwardReady(s, now) ==> ForwardReady(r, now) && BackwardReady(r, now)
  {
    RescheduleKeepsCursorsReadyWhenReady(s, o, now - delay, now, timeScale);
    Reschedule(s, o, now - delay, now, timeScale)
  }

  lemma RescheduleKeepsCursorsReadyWhenReady(s: Schedule, o: OccurrenceId, t: real, now: real, timeScale: real)
    requires Known(s) && o in s.info
    ensures ForwardReady(s, now) && BackwardReady(s, now) ==>
              ForwardReady(Reschedule(s, o, t, now, timeScale), now) && BackwardReady(Reschedule(s, o, t, now, timeScale), now)
  {
    if ForwardReady(s, now) && BackwardReady(s, now) {
      RescheduleKeepsCursorsReady(s, o, t, now, timeScale);
    }
  }

  /** Postponing A to 10 on the example as written keeps the stale cursor; the repaired
      version moves it to B. */
  lemma PostponeExample()
    ensures Postpone(TwoPending(), 0, 10.0, 0.0, 1.0).nextForward == Some(0)
    ensures !ForwardReady(Postpone(TwoPending(), 0, 10.0, 0.0, 1.0), 0.0)
    ensures PostponeRepaired(TwoPending(), 0, 10.0, 0.0, 1.0).nextForward == Some(1)
  {
    RescheduleAsWrittenSkipsOccurrence();
    RescheduleFixesExample();
  }

  // ---------------------------------------------------------------------------------------
  // Triggering

  function Forwards(ids: seq<OccurrenceId>): (r: seq<Firing>)
    ensures |r| == |ids| && forall i :: 0 <= i < |ids| ==> r[i] == Forward(ids[i])
  {
    seq(|ids|, i requires 0 <= i < |ids| => Forward(ids[i]))
  }

  function Backwards(ids: seq<OccurrenceId>): (r: seq<Firing>)
    ensures |r| == |ids| && forall i :: 0 <= i < |ids| ==> r[i] == Backward(ids[i])
  {
    seq(|ids|, i requires 0 <= i < |ids| => Backward(ids[i]))
  }

  /** The occurrences in the list, as a set. */
  function Listed(s: Schedule): set<OccurrenceId> {
    set o | o in s.occurrences
  }

  /** The termination measure shared by both trigger loops: occurrences still to be handled,
      plus one while the cursor is not one of them (only possible on entry, when the cursor
      may point to a cancelled occurrence). */
  function Pending(s: Schedule, cursor: Option<OccurrenceId>, handled: set<OccurrenceId>): nat {
    |Listed(s) - handled| + (if cursor.Some? && cursor.value !in Listed(s) - handled then 1 else 0)
  }

  /** Moving the cursor on to an unhandled listed occurrence (or to none) never grows the
      measure when the list only lost elements; it shrinks it when the old cursor is handled
      now or was not pending in the first place. */
  lemma PendingShrinks(s: Schedule, s2: Schedule, c: OccurrenceId, handled: set<OccurrenceId>,
                       handled2: set<OccurrenceId>, next: Option<OccurrenceId>)
    requires Listed(s2) <= Listed(s)
    requires handled2 == handled + {c} || handled2 == handled
    requires c !in handled
    requires next.Some? ==> next.value in Listed(s2) - handled2
    ensures Pending(s2, next, handled2) <= Pending(s, Some(c), handled)
    ensures handled2 == handled + {c} ==> Pending(s2, next, handled2) < Pending(s, Some(c), handled)
    ensures c !in Listed(s) - handled ==> Pending(s2, next, handled2) < Pending(s, Some(c), handled)
  {
    var before, after := Listed(s) - handled, Listed(s2) - handled2;
    if c in before {
      if handled2 == handled + {c} {
        assert after <= before - {c};
        SubsetCardinality(after, before - {c});
      } else {
        SubsetCardinality(after, before);
      }
    } else {
      assert after <= before;
      SubsetCardinality(after, before);
    }
  }

  /** What holds after some iterations of the forward loop, having fired `firedNow`. */
  ghost predicate ForwardProgress(s: Schedule, now: real, r: Schedule, firedNow: seq<OccurrenceId>, handled: set<OccurrenceId>)
  {
    && Known(r) && r.occurrences == s.occurrences && r.info == s.info
    && r.fired == s.fired + Forwards(firedNow)
    && (forall o :: o in handled <==> o in firedNow)
    && NoDup(firedNow)
    && (forall i :: 0 <= i < |firedNow| ==> firedNow[i] in r.info && r.info[firedNow[i]].time <= now)
    && (forall i, j :: 0 <= i < j < |firedNow| ==> r.info[firedNow[i]].time <= r.info[firedNow[j]].time)
    && (|firedNow| == 0 ==> r == s)
    && (|firedNow| > 0 ==> r.nextBackward == Some(firedNow[|firedNow| - 1]))
    && (|firedNow| > 0 ==> r.nextForward == After(r, TimeOf(r, firedNow[|firedNow| - 1]), handled))
    && (r.nextForward.Some? ==> r.nextForward.value !in handled)
  }

  /** Completeness of the forward loop so far: every listed occurrence not fired yet that is
      due by now and no earlier than the cursor the loop started from is still ahead of the
      cursor, so the loop will reach it. */
  ghost predicate ForwardCovers(s: Schedule, now: real, r: Schedule, firedNow: seq<OccurrenceId>)
    requires Known(s) && Known(r) && r.info == s.info
  {
    forall o :: o in s.occurrences && o !in firedNow && s.nextForward.Some?
                && TimeOf(s, s.nextForward.value) <= TimeOf(s, o) <= now ==>
      r.nextForward.Some? && TimeOf(r, r.nextForward.value) <= TimeOf(r, o)
  }

  /** One iteration of the forward loop. */
  function ForwardStep(r: Schedule, handled: set<OccurrenceId>): (r2: Schedule)
    requires Known(r) && r.nextForward.Some?
    ensures Known(r2)
  {
    var c := r.nextForward.value;
    r.(fired := r.fired + [Forward(c)], nextBackward := Some(c), nextForward := After(r, TimeOf(r, c), handled + {c}))
  }

  lemma ForwardStepProgresses(s: Schedule, now: real, r: Schedule, firedNow: seq<OccurrenceId>, handled: set<OccurrenceId>)
    requires ForwardProgress(s, now, r, firedNow, handled)
    requires r.nextForward.Some? && TimeOf(r, r.nextForward.value) <= now
    ensures var c := r.nextForward.value;
            ForwardProgress(s, now, ForwardStep(r, handled), firedNow + [c], handled + {c})
  {
    var c := r.nextForward.value;
    var r2 := ForwardStep(r, handled);
    var f2, h2 := firedNow + [c], handled + {c};
    assert Forwards(f2) == Forwards(firedNow) + [Forward(c)];
    assert r2.fired == s.fired + Forwards(f2);
    assert forall o :: o in h2 <==> o in f2;
    ForwardStepOrder(s, now, r, firedNow, handled);
    assert r2.nextForward == After(r2, TimeOf(r2, c), h2);
  }

  /** The occurrence fired by one more iteration is new, due, and no earlier than the ones
      fired before it. */
  lemma ForwardStepOrder(s: Schedule, now: real, r: Schedule, firedNow: seq<OccurrenceId>, handled: set<OccurrenceId>)
    requires ForwardProgress(s, now, r, firedNow, handled)
    requires r.nextForward.Some? && TimeOf(r, r.nextForward.value) <= now
    ensures var f2 := firedNow + [r.nextForward.value];
            && NoDup(f2)
            && (forall i :: 0 <= i < |f2| ==> f2[i] in r.info && r.info[f2[i]].time <= now)
            && (forall i, j :: 0 <= i < j < |f2| ==> r.info[f2[i]].time <= r.info[f2[j]].time)
  {
    var c := r.nextForward.value;
    assert c !in firedNow;
    assert |firedNow| > 0 ==> TimeOf(r, c) >= TimeOf(r, firedNow[|firedNow| - 1]);
    AppendLatest(firedNow, c, r.info, now);
  }

  /** Appending a due occurrence no earlier than the last one keeps a fired list new, due and
      in time order. */
  lemma AppendLatest(fs: seq<OccurrenceId>, c: OccurrenceId, info: map<OccurrenceId, Occurrence>, now: real)
    requires NoDup(fs) && c !in fs && c in info && info[c].time <= now
    requires forall i :: 0 <= i < |fs| ==> fs[i] in info && info[fs[i]].time <= now
    requires forall i, j :: 0 <= i < j < |fs| ==> info[fs[i]].time <= info[fs[j]].time
    requires |fs| > 0 ==> info[c].time >= info[fs[|fs| - 1]].time
    ensures var f2 := fs + [c];
            && NoDup(f2)
            && (forall i :: 0 <= i < |f2| ==> f2[i] in info && info[f2[i]].time <= now)
            && (forall i, j :: 0 <= i < j < |f2| ==> info[f2[i]].time <= info[f2[j]].time)
  {
    var f2, n := fs + [c], |fs|;
    assert forall i :: 0 <= i < n ==> f2[i] == fs[i];
    assert f2[n] == c;
    forall i, j | 0 <= i < j < |f2|
      ensures f2[i] != f2[j] && info[f2[i]].time <= info[f2[j]].time
    {
      if j == n && i < n - 1 {
        assert info[fs[i]].time <= info[fs[n - 1]].time;
      }
    }
  }

  /** Firing the cursor keeps every unfired due occurrence ahead of the next cursor: it is a
      candidate for the search from the fired occurrence's time. */
  lemma ForwardStepCovers(s: Schedule, now: real, r: Schedule, firedNow: seq<OccurrenceId>, handled: set<OccurrenceId>)
    requires Known(s) && ForwardProgress(s, now, r, firedNow, handled)
    requires ForwardCovers(s, now, r, firedNow)
    requires r.nextForward.Some? && TimeOf(r, r.nextForward.value) <= now
    ensures ForwardCovers(s, now, ForwardStep(r, handled), firedNow + [r.nextForward.value])
  {
    var c := r.nextForward.value;
    var r2 := ForwardStep(r, handled);
    forall o | o in s.occurrences && o !in firedNow + [c] && s.nextForward.Some?
               && TimeOf(s, s.nextForward.value) <= TimeOf(s, o) <= now
      ensures r2.nextForward.Some? && TimeOf(r2, r2.nextForward.value) <= TimeOf(r2, o)
    {
      assert o !in firedNow && o != c;
      assert o in r.occurrences && o !in handled + {c} && TimeOf(r, o) >= TimeOf(r, c);
    }
  }

  lemma ForwardStepShrinks(r: Schedule, handled: set<OccurrenceId>)
    requires Known(r) && r.nextForward.Some? && r.nextForward.value !in handled
    ensures var c := r.nextForward.value;
            Pending(ForwardStep(r, handled), ForwardStep(r, handled).nextForward, handled + {c})
              < Pending(r, r.nextForward, handled)
  {
    var c := r.nextForward.value;
    var r2 := ForwardStep(r, handled);
    PendingShrinks(r, r2, c, handled, handled + {c}, r2.nextForward);
  }

  /** When the forward loop stops, the cursor is past now and, if anything fired, no pending
      occurrence is earlier than it. */
  lemma ForwardLoopExit(s: Schedule, now: real, r: Schedule, firedNow: seq<OccurrenceId>, handled: set<OccurrenceId>)
    requires Known(s)
    requires ForwardProgress(s, now, r, firedNow, handled)
    requires !(r.nextForward.Some? && TimeOf(r, r.nextForward.value) <= now)
    ensures ForwardReady(s, now) || |firedNow| > 0 ==> ForwardReady(r, now)
    ensures ForwardCovers(s, now, r, firedNow) ==>
              forall o :: (o in s.occurrences && s.nextForward.Some?
                           && TimeOf(s, s.nextForward.value) <= TimeOf(s, o) <= now) ==> o in firedNow
  {
    if |firedNow| > 0 {
      forall x | x in r.occurrences && r.info[x].time > now
        ensures r.nextForward.Some? && r.info[r.nextForward.value].time <= r.info[x].time
      {
        assert x !in handled;
      }
    }
  }

  /** TriggerForwardOccurrences: while the forward cursor is due, fire it, remember it as
      handled and as the backward cursor, and move the cursor to the nearest unhandled
      occurrence at or after it. `firedNow` lists the occurrences fired, in order. */
  method TriggerForward(s: Schedule, now: real) returns (r: Schedule, firedNow: seq<OccurrenceId>)
    requires Known(s)
    ensures Known(r) && r.occurrences == s.occurrences && r.info == s.info
    ensures r.fired == s.fired + Forwards(firedNow)
    ensures NoDup(firedNow)
    ensures forall i :: 0 <= i < |firedNow| ==> firedNow[i] in r.info && r.info[firedNow[i]].time <= now
    ensures forall i, j :: 0 <= i < j < |firedNow| ==> r.info[firedNow[i]].time <= r.info[firedNow[j]].time
    ensures |firedNow| == 0 ==> r == s
    ensures |firedNow| > 0 ==> r.nextBackward == Some(firedNow[|firedNow| - 1])
    ensures r.nextForward.None? || TimeOf(r, r.nextForward.value) > now
    ensures ForwardReady(s, now) || |firedNow| > 0 ==> ForwardReady(r, now)
    ensures forall o :: (o in s.occurrences && s.nextForward.Some?
                         && TimeOf(s, s.nextForward.value) <= TimeOf(s, o) <= now) ==> o in firedNow
    ensures forall prev :: ForwardReady(s, prev) ==>
              forall o :: o in s.occurrences && prev < TimeOf(s, o) <= now ==> o in firedNow
  {
    var handled: set<OccurrenceId> := {};
    r, firedNow := s, [];
    while r.nextForward.Some? && TimeOf(r, r.nextForward.value) <= now
      invariant ForwardProgress(s, now, r, firedNow, handled)
      invariant ForwardCovers(s, now, r, firedNow)
      decreases Pending(r, r.nextForward, handled)
    {
      var c := r.nextForward.value;
      ForwardStepCovers(s, now, r, firedNow, handled);
      ForwardStepProgresses(s, now, r, firedNow, handled);
      ForwardStepShrinks(r, handled);
      r, firedNow, handled := ForwardStep(r, handled), firedNow + [c], handled + {c};
    }
    ForwardLoopExit(s, now, r, firedNow, handled);
  }

  /** The last repeatable occurrence of a firing sequence, if any. */
  function LastRepeatable(info: map<OccurrenceId, Occurrence>, ids: seq<OccurrenceId>): (r: Option<OccurrenceId>)
    requires forall i :: 0 <= i < |ids| ==> ids[i] in info
    ensures r.None? <==> forall i :: 0 <= i < |ids| ==> !info[ids[i]].repeatable
    ensures r.Some? ==> exists k :: (0 <= k < |ids| && ids[k] == r.value && info[ids[k]].repeatable
                                     && forall j :: k < j < |ids| ==> !info[ids[j]].repeatable)
    decreases |ids|
  {
    if |ids| == 0 then None
    else if info[ids[|ids| - 1]].repeatable then Some(ids[|ids| - 1])
    else
      var r := LastRepeatable(info, ids[..|ids| - 1]);
      assert forall i :: 0 <= i < |ids| - 1 ==> ids[..|ids| - 1][i] == ids[i];
      r
  }

  lemma LastRepeatableAppend(info: map<OccurrenceId, Occurrence>, ids: seq<OccurrenceId>, c: OccurrenceId)
    requires forall i :: 0 <= i < |ids| ==> ids[i] in info
    requires c in info
    ensures LastRepeatable(info, ids + [c]) == if info[c].repeatable then Some(c) else LastRepeatable(info, ids)
  {
    assert (ids + [c])[..|ids|] == ids;
  }

  /** Backward loop progress, part one: the firing log. */
  ghost predicate BackwardFired(s: Schedule, now: real, r: Schedule, firedNow: seq<OccurrenceId>)
  {
    && Known(s) && Known(r) && r.info == s.info
    && r.fired == s.fired + Backwards(firedNow)
    && (forall i :: 0 <= i < |firedNow| ==> firedNow[i] in s.info && s.info[firedNow[i]].time >= now)
    && (forall i, j :: 0 <= i < j < |firedNow| ==> s.info[firedNow[i]].time >= s.info[firedNow[j]].time)
  }

  /** Backward loop progress, part two: the list only loses fired non-repeatable occurrences. */
  ghost predicate BackwardKept(s: Schedule, r: Schedule, firedNow: seq<OccurrenceId>)
  {
    && multiset(r.occurrences) <= multiset(s.occurrences)
    && (forall o :: o !in firedNow ==> multiset(r.occurrences)[o] == multiset(s.occurrences)[o])
    && (forall o :: o in s.info && s.info[o].repeatable ==> multiset(r.occurrences)[o] == multiset(s.occurrences)[o])
  }

  /** Backward loop progress, part three: the handled set and the forward cursor. */
  ghost predicate BackwardHandled(s: Schedule, r: Schedule, firedNow: seq<OccurrenceId>, handled: set<OccurrenceId>)
    requires forall i :: 0 <= i < |firedNow| ==> firedNow[i] in s.info
  {
    && (forall o :: o in handled <==> o in firedNow && s.info[o].repeatable)
    && (forall i, j :: 0 <= i < j < |firedNow| && s.info[firedNow[i]].repeatable ==> firedNow[i] != firedNow[j])
    && (|firedNow| == 0 ==> r == s)
    && r.nextForward == (if LastRepeatable(s.info, firedNow).Some? then LastRepeatable(s.info, firedNow) else s.nextForward)
  }

  /** Backward loop progress, part four: the backward cursor. */
  ghost predicate BackwardCursor(s: Schedule, r: Schedule, firedNow: seq<OccurrenceId>, handled: set<OccurrenceId>)
    requires Known(r) && r.info == s.info && forall i :: 0 <= i < |firedNow| ==> firedNow[i] in s.info
  {
    && (|firedNow| > 0 ==> r.nextBackward == Before(r, TimeOf(r, firedNow[|firedNow| - 1]), handled))
    && (r.nextBackward.Some? ==> r.nextBackward.value !in handled)
    && (forall o :: o in firedNow && !s.info[o].repeatable && o in r.occurrences ==>
          r.nextBackward.Some? && TimeOf(r, r.nextBackward.value) >= TimeOf(r, o))
  }

  /** Completeness of the backward loop so far: every listed occurrence not fired yet that is
      at or after now and no later than the cursor the loop started from is still behind
      the cursor, so the loop will reach it. */
  ghost predicate BackwardCovers(s: Schedule, now: real, r: Schedule, firedNow: seq<OccurrenceId>)
    requires Known(s) && Known(r) && r.info == s.info
  {
    forall o :: (o in s.occurrences && o !in firedNow && s.nextBackward.Some?
                 && now <= TimeOf(s, o) <= TimeOf(s, s.nextBackward.value)) ==>
      r.nextBackward.Some? && TimeOf(r, r.nextBackward.value) >= TimeOf(r, o)
  }

  /** What holds after some iterations of the backward loop, having fired `firedNow`. */
  ghost predicate BackwardProgress(s: Schedule, now: real, r: Schedule, firedNow: seq<OccurrenceId>, handled: set<OccurrenceId>)
  {
    BackwardFired(s, now, r, firedNow) && BackwardKept(s, r, firedNow)
    && BackwardHandled(s, r, firedNow, handled) && BackwardCursor(s, r, firedNow, handled)
  }

  /** One iteration of the backward loop: fire the cursor; keep a repeatable occurrence as
      handled and as the forward cursor, drop a non-repeatable one from the list; move the
      cursor to the nearest unhandled occurrence at or before it. */
  function BackwardStep(r: Schedule, handled: set<OccurrenceId>): (out: (Schedule, set<OccurrenceId>))
    requires Known(r) && r.nextBackward.Some?
    ensures Known(out.0) && out.0.info == r.info
  {
    var c := r.nextBackward.value;
    var fired := r.(fired := r.fired + [Backward(c)]);
    if r.info[c].repeatable then
      var kept := fired.(nextForward := Some(c));
      (kept.(nextBackward := Before(kept, TimeOf(r, c), handled + {c})), handled + {c})
    else
      var dropped := fired.(occurrences := RemoveFirst(r.occurrences, c));
      (dropped.(nextBackward := Before(dropped, TimeOf(r, c), handled)), handled)
  }

  lemma BackwardStepFired(s: Schedule, now: real, r: Schedule, firedNow: seq<OccurrenceId>, handled: set<OccurrenceId>)
    requires BackwardFired(s, now, r, firedNow)
    requires |firedNow| > 0 ==> r.nextBackward.Some? && TimeOf(r, r.nextBackward.value) <= TimeOf(r, firedNow[|firedNow| - 1])
    requires r.nextBackward.Some? && TimeOf(r, r.nextBackward.value) >= now
    ensures BackwardFired(s, now, BackwardStep(r, handled).0, firedNow + [r.nextBackward.value])
  {
    var c := r.nextBackward.value;
    var r2, f2 := BackwardStep(r, handled).0, firedNow + [c];
    assert Backwards(f2) == Backwards(firedNow) + [Backward(c)];
    assert forall i :: 0 <= i < |firedNow| ==> f2[i] == firedNow[i];
  }

  lemma BackwardStepKept(s: Schedule, r: Schedule, firedNow: seq<OccurrenceId>, handled: set<OccurrenceId>)
    requires Known(r) && r.info == s.info && r.nextBackward.Some?
    requires BackwardKept(s, r, firedNow)
    ensures BackwardKept(s, BackwardStep(r, handled).0, firedNow + [r.nextBackward.value])
  {
    var c := r.nextBackward.value;
    var r2 := BackwardStep(r, handled).0;
    assert r.info[c].repeatable ==> r2.occurrences == r.occurrences;
    assert !r.info[c].repeatable ==> multiset(r2.occurrences) == multiset(r.occurrences) - multiset{c};
    KeptStep(multiset(s.occurrences), multiset(r.occurrences), multiset(r2.occurrences), s.info, firedNow, c);
  }

  /** The counting argument behind BackwardStepKept: removing one copy of the fired
      occurrence, only when it is not repeatable, keeps the list within what it was. */
  lemma KeptStep(m: multiset<OccurrenceId>, m0: multiset<OccurrenceId>, m1: multiset<OccurrenceId>,
                 info: map<OccurrenceId, Occurrence>, firedNow: seq<OccurrenceId>, c: OccurrenceId)
    requires m0 <= m && c in info
    requires forall o :: o !in firedNow ==> m0[o] == m[o]
    requires forall o :: o in info && info[o].repeatable ==> m0[o] == m[o]
    requires info[c].repeatable ==> m1 == m0
    requires !info[c].repeatable ==> m1 == m0 - multiset{c}
    ensures m1 <= m
    ensures forall o :: o !in firedNow + [c] ==> m1[o] == m[o]
    ensures forall o :: o in info && info[o].repeatable ==> m1[o] == m[o]
  {
    forall o | o !in firedNow + [c] ensures m1[o] == m[o] {
      assert o !in firedNow && o != c;
    }
  }

  lemma BackwardStepHandled(s: Schedule, r: Schedule, firedNow: seq<OccurrenceId>, handled: set<OccurrenceId>)
    requires Known(r) && r.info == s.info && r.nextBackward.Some? && r.nextBackward.value !in handled
    requires forall i :: 0 <= i < |firedNow| ==> firedNow[i] in s.info
    requires BackwardHandled(s, r, firedNow, handled)
    ensures var c := r.nextBackward.value; var out := BackwardStep(r, handled);
            BackwardHandled(s, out.0, firedNow + [c], out.1)
  {
    var c := r.nextBackward.value;
    var out := BackwardStep(r, handled);
    var h2, f2 := out.1, firedNow + [c];
    assert forall i :: 0 <= i < |firedNow| ==> f2[i] == firedNow[i];
    assert forall o :: o in f2 <==> o in firedNow || o == c;
    assert forall o :: o in h2 <==> o in f2 && s.info[o].repeatable;
    forall i, j | 0 <= i < j < |f2| && s.info[f2[i]].repeatable ensures f2[i] != f2[j] {
      if j == |firedNow| { assert f2[i] in handled; }
    }
    LastRepeatableAppend(s.info, firedNow, c);
  }

  lemma BackwardStepCursor(s: Schedule, r: Schedule, firedNow: seq<OccurrenceId>, handled: set<OccurrenceId>)
    requires Known(r) && r.info == s.info && r.nextBackward.Some?
    requires forall i :: 0 <= i < |firedNow| ==> firedNow[i] in s.info
    requires forall o :: o in handled ==> o in s.info && s.info[o].repeatable
    requires BackwardCursor(s, r, firedNow, handled)
    requires |firedNow| > 0 ==> TimeOf(r, r.nextBackward.value) <= TimeOf(r, firedNow[|firedNow| - 1])
    ensures var c := r.nextBackward.value; var out := BackwardStep(r, handled);
            BackwardCursor(s, out.0, firedNow + [c], out.1)
  {
    var c := r.nextBackward.value;
    var out := BackwardStep(r, handled);
    var r2, h2, f2 := out.0, out.1, firedNow + [c];
    assert f2[|f2| - 1] == c;
    forall o | o in f2 && !s.info[o].repeatable && o in r2.occurrences
      ensures r2.nextBackward.Some? && TimeOf(r2, r2.nextBackward.value) >= TimeOf(r2, o)
    {
      assert o in r.occurrences && o !in h2;
      if o != c {
        assert o in firedNow;
      }
    }
  }

  /** Firing the cursor backward keeps every unfired occurrence in the window behind the
      next cursor: it is still listed and a candidate for the search from the fired
      occurrence's time. */
  lemma BackwardStepCovers(s: Schedule, now: real, r: Schedule, firedNow: seq<OccurrenceId>, handled: set<OccurrenceId>)
    requires BackwardProgress(s, now, r, firedNow, handled)
    requires BackwardCovers(s, now, r, firedNow)
    requires r.nextBackward.Some? && TimeOf(r, r.nextBackward.value) >= now
    ensures BackwardCovers(s, now, BackwardStep(r, handled).0, firedNow + [r.nextBackward.value])
  {
    var c := r.nextBackward.value;
    var out := BackwardStep(r, handled);
    var r2, h2 := out.0, out.1;
    assert h2 == handled || h2 == handled + {c};
    forall o | o in s.occurrences && o !in firedNow + [c] && s.nextBackward.Some?
               && now <= TimeOf(s, o) <= TimeOf(s, s.nextBackward.value)
      ensures r2.nextBackward.Some? && TimeOf(r2, r2.nextBackward.value) >= TimeOf(r2, o)
    {
      assert o !in firedNow && o != c;
      assert multiset(r.occurrences)[o] == multiset(s.occurrences)[o] > 0;
      assert multiset(r2.occurrences)[o] == multiset(r.occurrences)[o];
      assert o in r2.occurrences && o !in h2 && TimeOf(r, o) <= TimeOf(r, c);
    }
  }

  /** The backward loop measure, list length plus the occurrences still to handle, drops
      when a repeatable occurrence is handled ... */
  lemma BackwardKeepShrinks(r: Schedule, handled: set<OccurrenceId>)
    requires Known(r) && r.nextBackward.Some? && r.nextBackward.value !in handled
    requires r.info[r.nextBackward.value].repeatable
    ensures var out := BackwardStep(r, handled);
            |out.0.occurrences| + Pending(out.0, out.0.nextBackward, out.1)
              < |r.occurrences| + Pending(r, r.nextBackward, handled)
  {
    var c := r.nextBackward.value;
    var out := BackwardStep(r, handled);
    var next := out.0.nextBackward;
    assert next.Some? ==> next.value in Listed(out.0) - out.1;
    PendingShrinks(r, out.0, c, handled, out.1, next);
  }

  /** ... and when a non-repeatable one is dropped from the list. */
  lemma BackwardDropShrinks(r: Schedule, handled: set<OccurrenceId>)
    requires Known(r) && r.nextBackward.Some? && r.nextBackward.value !in handled
    requires !r.info[r.nextBackward.value].repeatable
    ensures var out := BackwardStep(r, handled);
            |out.0.occurrences| + Pending(out.0, out.0.nextBackward, out.1)
              < |r.occurrences| + Pending(r, r.nextBackward, handled)
  {
    var c := r.nextBackward.value;
    var out := BackwardStep(r, handled);
    var r2, next := out.0, out.0.nextBackward;
    assert r2.occurrences == RemoveFirst(r.occurrences, c) && out.1 == handled;
    assert Listed(r2) <= Listed(r);
    assert next.Some? ==> next.value in Listed(r2) - handled;
    if c in r.occurrences {
      assert |r2.occurrences| < |r.occurrences|;
    } else {
      assert c !in Listed(r) - handled;
    }
    PendingShrinks(r, r2, c, handled, handled, next);
  }

  /** When the backward loop stops, the cursor is before now, every non-repeatable occurrence
      fired is gone and, if anything fired, no past occurrence is later than the cursor. */
  lemma BackwardLoopExit(s: Schedule, now: real, r: Schedule, firedNow: seq<OccurrenceId>, handled: set<OccurrenceId>)
    requires BackwardProgress(s, now, r, firedNow, handled)
    requires !(r.nextBackward.Some? && TimeOf(r, r.nextBackward.value) >= now)
    ensures forall o :: o in firedNow && !s.info[o].repeatable ==> o !in r.occurrences
    ensures BackwardReady(s, now) || |firedNow| > 0 ==> BackwardReady(r, now)
    ensures BackwardCovers(s, now, r, firedNow) ==>
              forall o :: (o in s.occurrences && s.nextBackward.Some?
                           && now <= TimeOf(s, o) <= TimeOf(s, s.nextBackward.value)) ==> o in firedNow
  {
    forall o | o in firedNow && !s.info[o].repeatable ensures o !in r.occurrences {
      var i :| 0 <= i < |firedNow| && firedNow[i] == o;
      assert TimeOf(r, o) >= now;
    }
    if |firedNow| > 0 {
      forall x | x in r.occurrences && r.info[x].time < now
        ensures r.nextBackward.Some? && r.info[r.nextBackward.value].time >= r.info[x].time
      {
        assert x !in handled;
      }
    }
  }

  /** TriggerBackwardOccurrences: while the backward cursor is due, fire it backward; a
      repeatable occurrence stays scheduled and becomes the forward cursor, any other one
      leaves the list. `firedNow` lists the occurrences fired, in order. */
  method TriggerBackward(s: Schedule, now: real) returns (r: Schedule, firedNow: seq<OccurrenceId>)
    requires Known(s)
    ensures Known(r) && r.info == s.info
    ensures r.fired == s.fired + Backwards(firedNow)
    ensures forall i :: 0 <= i < |firedNow| ==> firedNow[i] in s.info && s.info[firedNow[i]].time >= now
    ensures forall i, j :: 0 <= i < j < |firedNow| ==> s.info[firedNow[i]].time >= s.info[firedNow[j]].time
    ensures forall i, j :: 0 <= i < j < |firedNow| && s.info[firedNow[i]].repeatable ==> firedNow[i] != firedNow[j]
    ensures multiset(r.occurrences) <= multiset(s.occurrences)
    ensures forall o :: o !in firedNow ==> multiset(r.occurrences)[o] == multiset(s.occurrences)[o]
    ensures forall o :: o in s.info && s.info[o].repeatable ==> multiset(r.occurrences)[o] == multiset(s.occurrences)[o]
    ensures forall o :: o in firedNow && !s.info[o].repeatable ==> o !in r.occurrences
    ensures r.nextForward == if LastRepeatable(s.info, firedNow).Some? then LastRepeatable(s.info, firedNow) else s.nextForward
    ensures |firedNow| == 0 ==> r == s
    ensures r.nextBackward.None? || TimeOf(r, r.nextBackward.value) < now
    ensures BackwardReady(s, now) || |firedNow| > 0 ==> BackwardReady(r, now)
    ensures forall o :: (o in s.occurrences && s.nextBackward.Some?
                         && now <= TimeOf(s, o) <= TimeOf(s, s.nextBackward.value)) ==> o in firedNow
    ensures forall prev :: BackwardReady(s, prev) ==>
              forall o :: o in s.occurrences && now <= TimeOf(s, o) < prev ==> o in firedNow
  {
    var handled: set<OccurrenceId> := {};
    r, firedNow := s, [];
    while r.nextBackward.Some? && TimeOf(r, r.nextBackward.value) >= now
      invariant BackwardProgress(s, now, r, firedNow, handled)
      invariant BackwardCovers(s, now, r, firedNow)
      decreases |r.occurrences| + Pending(r, r.nextBackward, handled)
    {
      var c := r.nextBackward.value;
      BackwardStepCovers(s, now, r, firedNow, handled);
      BackwardStepFired(s, now, r, firedNow, handled);
      BackwardStepKept(s, r, firedNow, handled);
      BackwardStepHandled(s, r, firedNow, handled);
      BackwardStepCursor(s, r, firedNow, handled);
      if r.info[c].repeatable {
        BackwardKeepShrinks(r, handled);
      } else {
        BackwardDropShrinks(r, handled);
      }
      var out := BackwardStep(r, handled);
      r, firedNow, handled := out.0, firedNow + [c], out.1;
    }
    BackwardLoopExit(s, now, r, firedNow, handled);
  }
}
