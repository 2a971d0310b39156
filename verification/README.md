# Chronos time control, modelled in Dafny

Chronos is a Unity plug-in that gives every game object its own virtual time. This project
models its core in Dafny and proves properties of that model:

- **Clocks.** A clock has a local time scale, an optional parent global clock and a blend
  (multiplicative or additive) with that parent. It can be paused, and it can ramp its
  scale toward a target over a window of unscaled time.
- **Global clocks and the timekeeper.** Global clocks are registered by key in the
  timekeeper singleton. Each global clock keeps the sets of clocks and timelines parented
  to it.
- **Area clocks.** An area clock captures the timelines that enter it and releases them
  when they leave. It gives a captured timeline a time scale in one of three modes: instant,
  distance from the entry point, or point to edge.
- **Timelines.** Each frame a timeline does the following, in order:
  - it sends the start/stop messages for the previous frame's change of scale;
  - it blends its clock's scale with every area clock it is in, and caps the result at 0
    when it cannot rewind;
  - it advances virtual time and keeps a queue of recent delta times for smoothing;
  - it fires the scheduled occurrences that are due: forward when time runs forward,
    backward when it rewinds.
- **Occurrence schedules.** Occurrences are scheduled at a time, planned ahead, remembered
  behind, cancelled or moved. A forward cursor and a backward cursor mark the next
  occurrence due in each direction.
- **The recorder.** A component that can rewind keeps a bounded buffer of snapshots
  recorded at a fixed interval. It rewinds by interpolating between the two snapshots
  around the current time, popping one as time passes it, until the buffer is exhausted.
- **The rigidbody timeline.** Built on the recorder, it captures the body's state when
  time halts and restores it when time resumes. It rescales velocities and drags whenever
  the positive time scale changes. A snapshot holds the pose, the velocities, the drags and
  the last positive time scale (the divisor of the next rescaling). Applying one while time
  is paused or rewinding leaves the body's velocities alone.
- **The rewindable particle system.** It keeps a stack of play-state events and a log of
  emission events. Both are written only while time runs forward. A rewind pops the stack
  and drops the log's future entries.

One module per source file: `Clocks`, `GlobalClocks`, `Timekeepers`, `AreaClocks`,
`Occurrences` and `Timelines` (both from Timeline.cs), `Recorders`, `Rigidbodies`,
`Particles`.

Shared pieces:
- `Wrappers` holds `Option`, `Result`, `Completion` and the error kinds.
- `Handles` holds object identities.
- `Messages` holds the broadcast messages.
- `Severities` holds the forward-time guards.
- `Mathf` holds the Unity maths used.
- `Lists` holds the `List<T>` operations used.

Modelling conventions:
- **Exceptions.** An exception becomes an `Err` value. When the source has already changed
  fields before throwing, the model returns `Threw(error, state at the throw)`.
- **Object references.** References become `nat` handles. A handle missing from its map
  stands for a destroyed object.
- **Time.** Time scales and times are exact reals. Where the source divides by a value
  that can be zero, the result is a `Quotient`: finite, ±infinity or NaN.
- **Outside inputs.** Unity's clocks (`Time.unscaledDeltaTime`, `Time.fixedDeltaTime`,
  `Time.frameCount`), collider geometry, animation curves and the snapshot interpolation
  are parameters.

## Model

| member | source | states |
|---|---|---|
| Clocks.ComputeTimeScale | Assets/Ludiq/Ludiq.Chronos/Source/Clock.cs:234-255 | a paused clock has scale 0; an unparented one its local scale; a parented one its local scale times, or plus, the parent's scale according to the blend; nothing else changes |
| Clocks.MultiplicativeChainIsProduct | Assets/Ludiq/Ludiq.Chronos/Source/Clock.cs:234-255 | in a chain of multiplicative clocks, none paused, the effective scale is the product of all local scales |
| Clocks.PausedAncestorStopsChain | Assets/Ludiq/Ludiq.Chronos/Source/Clock.cs:234-255 | one paused clock in a multiplicative chain stops every clock below it |
| Clocks.LerpTimeScale | Assets/Ludiq/Ludiq.Chronos/Source/Clock.cs:260-288 | a negative duration throws and changes nothing; a zero duration sets the scale at once; a steady ramp to the current scale is ignored; otherwise a ramp from the current scale is started over the window; the ramp window stays valid |
| Clocks.Tick | Assets/Ludiq/Ludiq.Chronos/Source/Clock.cs:75-94 | a running ramp interpolates toward its target and ends exactly on it at the window's end; then the scale is recomputed, delta time is the unscaled delta times the scale and time advances by it; a paused clock's time does not move |
| Clocks.FinishedRampStays | Assets/Ludiq/Ludiq.Chronos/Source/Clock.cs:77-85 | with no ramp running, any run of frames leaves the local scale alone |
| Clocks.RampLandsOnTarget | Assets/Ludiq/Ludiq.Chronos/Source/Clock.cs:77-85 | once a frame starts at or after the window's end, the ramp is over and the local scale is exactly its target |
| Clocks.RampIsMonotone | Assets/Ludiq/Ludiq.Chronos/Source/Clock.cs:77-85 | a ramp toward a larger value never lowers the local scale from one frame to a later one |
| Clocks.SetParent | Assets/Ludiq/Ludiq.Chronos/Source/Clock.cs:180-207 | the clock first leaves its old parent; choosing itself throws, with the old parent already left; otherwise it joins the new parent; no other global clock and no timeline set changes |
| Clocks.SetParentKeepsRegistration | Assets/Ludiq/Ludiq.Chronos/Source/Clock.cs:180-207 | after a successful re-parenting the clock is a child of exactly its parent |
| GlobalClocks.RegisterTimeline | Assets/Ludiq/Ludiq.Chronos/Source/GlobalClock.cs:43-48 | a missing timeline throws; otherwise the timeline is in the set and no other membership changes |
| GlobalClocks.UnregisterTimeline | Assets/Ludiq/Ludiq.Chronos/Source/GlobalClock.cs:50-55 | a missing timeline throws; otherwise the timeline is out of the set and no other membership changes |
| GlobalClocks.RegisterClock | Assets/Ludiq/Ludiq.Chronos/Source/GlobalClock.cs:57-62 | as RegisterTimeline, for child clocks |
| GlobalClocks.UnregisterClock | Assets/Ludiq/Ludiq.Chronos/Source/GlobalClock.cs:64-69 | as UnregisterTimeline, for child clocks |
| GlobalClocks.RegisterTimelineIdempotent | Assets/Ludiq/Ludiq.Chronos/Source/GlobalClock.cs:43-48 | registering a timeline twice equals registering it once |
| GlobalClocks.UnregisterAbsentTimeline | Assets/Ludiq/Ludiq.Chronos/Source/GlobalClock.cs:50-55 | unregistering a timeline that is not registered changes nothing |
| GlobalClocks.RegisterUnregisterTimeline | Assets/Ludiq/Ludiq.Chronos/Source/GlobalClock.cs:43-55 | registering a fresh timeline then unregistering it restores the clock |
| GlobalClocks.RegisterClockIdempotent | Assets/Ludiq/Ludiq.Chronos/Source/GlobalClock.cs:57-62 | registering a child clock twice equals registering it once |
| GlobalClocks.RegisterUnregisterClock | Assets/Ludiq/Ludiq.Chronos/Source/GlobalClock.cs:57-69 | registering a fresh child clock then unregistering it restores the clock |
| GlobalClocks.NewHasNoChildren | Assets/Ludiq/Ludiq.Chronos/Source/GlobalClock.cs:14-18 | a new global clock has no children: unregistering anything leaves it as it was |
| Timekeepers.GetTimeState | Assets/Ludiq/Ludiq.Chronos/Source/Timekeeper.cs:130-152 | each of the five time states holds exactly on its own range of scales (negative, zero, below 1, 1, above 1) |
| Timekeepers.UnscaledDeltaTime | Assets/Ludiq/Ludiq.Chronos/Source/Timekeeper.cs:157-170 | the first frames use the fixed start-up delta; later frames use the real delta capped at the maximum |
| Timekeepers.HasClock | Assets/Ludiq/Ludiq.Chronos/Source/Timekeeper.cs:73-78 | a missing key throws; otherwise true exactly when the key is registered |
| Timekeepers.GetClock | Assets/Ludiq/Ludiq.Chronos/Source/Timekeeper.cs:83-93 | a missing key throws; an unknown key throws UnknownClock; a known key gives its clock |
| Timekeepers.AddClock | Assets/Ludiq/Ludiq.Chronos/Source/Timekeeper.cs:98-111 | succeeds exactly for a present, unregistered key; the new clock has that key and no children; only that key is added |
| Timekeepers.RemoveClock | Assets/Ludiq/Ludiq.Chronos/Source/Timekeeper.cs:116-126 | succeeds exactly for a registered key; only that key is removed and the others keep their clocks |
| Timekeepers.AddThenRemove | Assets/Ludiq/Ludiq.Chronos/Source/Timekeeper.cs:98-126 | adding a fresh key and removing it restores the registry |
| Timekeepers.AddThenLookUp | Assets/Ludiq/Ludiq.Chronos/Source/Timekeeper.cs:73-126 | after adding, the key is known and looks up the new clock; after removing, it is unknown again |
| Timekeepers.RegisteredContents | Assets/Ludiq/Ludiq.Chronos/Source/Timekeeper.cs:22-28 | registering clocks one by one maps each clock's key to that clock and keeps the earlier entries |
| Timekeepers.RegistrableExtend | Assets/Ludiq/Ludiq.Chronos/Source/Timekeeper.cs:22-28 | one more clock can be registered exactly when it has a key not yet registered |
| Timekeepers.Awake | Assets/Ludiq/Ludiq.Chronos/Source/Timekeeper.cs:22-28 | the attached clocks are registered in order; it stops at the first clock with no key (ArgumentNull) or a duplicate key (ArgumentException), keeping what was registered before |
| AreaClocks.Capture | Assets/Ludiq/Ludiq.Chronos/Source/AreaClock.cs:166-179 | a missing timeline throws; the entry point is recorded only the first time; the timeline lists the clock once; no other clock or timeline changes |
| AreaClocks.Release | Assets/Ludiq/Ludiq.Chronos/Source/AreaClock.cs:184-197 | a missing timeline throws; the timeline is forgotten and its list loses the first occurrence of the clock; nothing else changes |
| AreaClocks.ReleaseAll | Assets/Ludiq/Ludiq.Chronos/Source/AreaClock.cs:202-213 | every timeline within the clock drops it from its list, then the clock forgets them all |
| AreaClocks.CaptureIsIdempotent | Assets/Ludiq/Ludiq.Chronos/Source/AreaClock.cs:166-179 | capturing a timeline already within changes nothing, whatever the new entry point |
| AreaClocks.ReleaseIsIdempotent | Assets/Ludiq/Ludiq.Chronos/Source/AreaClock.cs:184-197 | releasing twice equals releasing once |
| AreaClocks.CapturePreservesInvariants | Assets/Ludiq/Ludiq.Chronos/Source/AreaClock.cs:166-179 | capture keeps the two sides of the occupancy relation in agreement, with no duplicate list entries |
| AreaClocks.ReleasePreservesInvariants | Assets/Ludiq/Ludiq.Chronos/Source/AreaClock.cs:184-197 | release keeps them in agreement, and the timeline no longer lists the clock |
| AreaClocks.ReleaseAllDetachesEverything | Assets/Ludiq/Ludiq.Chronos/Source/AreaClock.cs:202-213 | after ReleaseAll no timeline lists the clock, and the relation stays consistent |
| AreaClocks.DistanceFromEntryTimeScale | Assets/Ludiq/Ludiq.Chronos/Source/AreaClock.cs:244-278 | a negative padding throws; beyond the padding the clock's full scale applies; inside it the scale lies between the no-effect value of the blend and the full scale |
| AreaClocks.FalloffEndPoints | Assets/Ludiq/Ludiq.Chronos/Source/AreaClock.cs:244-278 | with a falloff curve at or below 0 at the entry point, the clock has no effect there; at the padding distance it has its full scale |
| AreaClocks.TimeScale | Assets/Ludiq/Ludiq.Chronos/Source/AreaClock.cs:219-242 | a missing timeline throws; instant mode gives the clock's scale; point-to-edge gives the collider's value; distance-from-entry needs a recorded entry point (KeyNotFound otherwise) |
| AreaClocks.CapturedHasEntry | Assets/Ludiq/Ludiq.Chronos/Source/AreaClock.cs:219-242 | a timeline that lists the clock always has an entry point, so the lookup never fails |
| Occurrences.AfterIn | Assets/Ludiq/Ludiq.Chronos/Source/Timeline.cs:422-439 | the earliest non-ignored occurrence at or after t, the first in list order among ties; none exactly when there is no candidate |
| Occurrences.BeforeIn | Assets/Ludiq/Ludiq.Chronos/Source/Timeline.cs:446-463 | the latest non-ignored occurrence at or before t, the first in list order among ties; none exactly when there is no candidate |
| Occurrences.Place | Assets/Ludiq/Ludiq.Chronos/Source/Timeline.cs:465-496 | at the current time the occurrence fires at once (backward if time rewinds) and becomes the other side's cursor; in the future or past it becomes that side's cursor if it is nearer |
| Occurrences.ScheduleAt | Assets/Ludiq/Ludiq.Chronos/Source/Timeline.cs:501-508 | the occurrence is appended with its time and flag, and fires only if scheduled at the current time |
| Occurrences.Do | Assets/Ludiq/Ludiq.Chronos/Source/Timeline.cs:513-516 | the occurrence is scheduled now and fires at once |
| Occurrences.Plan | Assets/Ludiq/Ludiq.Chronos/Source/Timeline.cs:521-529 | a delay that is not positive throws; otherwise the occurrence lands in the future and nothing fires |
| Occurrences.Memory | Assets/Ludiq/Ludiq.Chronos/Source/Timeline.cs:534-542 | a delay that is not negative throws; otherwise the occurrence lands in the past and nothing fires |
| Occurrences.ScheduleKeepsCursorsReady | Assets/Ludiq/Ludiq.Chronos/Source/Timeline.cs:465-508 | scheduling keeps every pending future occurrence no earlier than the forward cursor, and every past one no later than the backward cursor |
| Occurrences.Cancel | Assets/Ludiq/Ludiq.Chronos/Source/Timeline.cs:614-634 | an unscheduled occurrence throws; otherwise its first entry leaves the list, and a cursor on it moves to the nearest other occurrence so neither cursor refers to it |
| Occurrences.TryCancel | Assets/Ludiq/Ludiq.Chronos/Source/Timeline.cs:639-650 | false, with nothing changed, exactly when the occurrence is not scheduled; otherwise the same as Cancel |
| Occurrences.CancelKeepsCursorsReady | Assets/Ludiq/Ludiq.Chronos/Source/Timeline.cs:614-634 | cancelling keeps both cursor invariants |
| Occurrences.RescheduleAsWritten | Assets/Ludiq/Ludiq.Chronos/Source/Timeline.cs:655-659 | as written, a forward cursor on the moved occurrence stays on it when it moves into the future |
| Occurrences.RescheduleAsWrittenSkipsOccurrence | Assets/Ludiq/Ludiq.Chronos/Source/Timeline.cs:655-659 | postponing the cursor's occurrence past another pending one breaks the forward invariant, and the other one is never found |
| Occurrences.Reschedule | Assets/Ludiq/Ludiq.Chronos/Source/Timeline.cs:655-659 | the occurrence gets its new time; the list is unchanged; nothing fires unless it is moved to now |
| Occurrences.RescheduleKeepsCursorsReady | Assets/Ludiq/Ludiq.Chronos/Source/Timeline.cs:655-659 | the repaired reschedule keeps both cursor invariants |
| Occurrences.RescheduleFixesExample | Assets/Ludiq/Ludiq.Chronos/Source/Timeline.cs:655-659 | on the example schedule, the repaired reschedule moves the cursor to the other occurrence |
| Occurrences.Postpone | Assets/Ludiq/Ludiq.Chronos/Source/Timeline.cs:664-667 | as written: the occurrence is moved to now plus the delay; a positive delay fires nothing and keeps the backward cursor; a forward cursor on the occurrence stays on it, the stale cursor of the Findings row |
| Occurrences.Prepone | Assets/Ludiq/Ludiq.Chronos/Source/Timeline.cs:672-675 | as written: the occurrence is moved to now minus the delay; a positive delay fires nothing and keeps the forward cursor; a backward cursor on the occurrence stays on it |
| Occurrences.PostponeRepaired | Assets/Ludiq/Ludiq.Chronos/Source/Timeline.cs:664-667 | Postpone with the repaired reschedule: the same move, and both cursor invariants survive it |
| Occurrences.PreponeRepaired | Assets/Ludiq/Ludiq.Chronos/Source/Timeline.cs:672-675 | Prepone with the repaired reschedule: the same move, and both cursor invariants survive it |
| Occurrences.PostponeExample | Assets/Ludiq/Ludiq.Chronos/Source/Timeline.cs:664-667 | on the Findings schedule, Postpone as written keeps the cursor on A and breaks the forward invariant; the repaired one moves the cursor to B |
| Occurrences.TriggerForward | Assets/Ludiq/Ludiq.Chronos/Source/Timeline.cs:378-392 | fires due occurrences forward in time order, each once; every listed occurrence due by now and no earlier than the starting cursor fires, so when the forward invariant held at an earlier time every occurrence after it and up to now fires; the last one fired becomes the backward cursor; afterwards the forward cursor is past now, and the forward invariant holds |
| Occurrences.ForwardLoopExit | Assets/Ludiq/Ludiq.Chronos/Source/Timeline.cs:382-391 | when the forward loop stops, the forward invariant holds again if it held before the loop or anything fired |
| Occurrences.LastRepeatable | Assets/Ludiq/Ludiq.Chronos/Source/Timeline.cs:402-407 | the last repeatable occurrence of a firing sequence, none exactly when none is repeatable |
| Occurrences.TriggerBackward | Assets/Ludiq/Ludiq.Chronos/Source/Timeline.cs:394-415 | fires occurrences at or after now backward in reverse time order; every listed occurrence at or after now and no later than the starting cursor fires, so when the backward invariant held at a later time every occurrence from now up to before it fires; repeatable ones fire once and stay; non-repeatable ones are removed; the last repeatable one fired becomes the forward cursor; afterwards the backward cursor is before now |
| Occurrences.BackwardLoopExit | Assets/Ludiq/Ludiq.Chronos/Source/Timeline.cs:398-414 | when the backward loop stops, every non-repeatable occurrence fired is gone, and the backward invariant holds again if it held before the loop or anything fired |
| Timelines.NewTimeline | Assets/Ludiq/Ludiq.Chronos/Source/Timeline.cs:35-43 | a new timeline has both scales at 1, nothing scheduled and nothing sent |
| Timelines.TriggerEvents | Assets/Ludiq/Ludiq.Chronos/Source/Timeline.cs:318-359 | a change of scale never sends OnExhaustRewind |
| Timelines.TriggerEventsMembers | Assets/Ludiq/Ludiq.Chronos/Source/Timeline.cs:318-359 | each of the eight messages is sent exactly when the scale crosses into or out of its range (pause at 0, rewind below 0, slow-down in (0, 1), fast-forward above 1) |
| Timelines.MessagesFollowTimeStates | Assets/Ludiq/Ludiq.Chronos/Source/Timeline.cs:318-359 | each start message is sent exactly when its time state is entered, and each stop message exactly when it is left |
| Timelines.MessagesAreDistinct | Assets/Ludiq/Ludiq.Chronos/Source/Timeline.cs:318-359 | no message is sent twice in one frame |
| Timelines.StartAndStopExclusive | Assets/Ludiq/Ludiq.Chronos/Source/Timeline.cs:318-359 | the start and stop messages of one state are never sent together |
| Timelines.SilentIffSameState | Assets/Ludiq/Ludiq.Chronos/Source/Timeline.cs:318-359 | nothing is sent exactly when the time state does not change |
| Timelines.AtMostTwoMessages | Assets/Ludiq/Ludiq.Chronos/Source/Timeline.cs:318-359 | one change of scale sends at most two messages |
| Timelines.RecordSmoothing | Assets/Ludiq/Ludiq.Chronos/Source/Timeline.cs:361-372 | for any window (the static smoothingDeltas), a queue within the window stays within it and keeps the latest non-zero deltas; a zero delta changes nothing; a queue above a lowered window shrinks by one entry per frame with a zero delta and keeps its length otherwise |
| Timelines.SmoothingKeepsLatest | Assets/Ludiq/Ludiq.Chronos/Source/Timeline.cs:361-372 | for any window, from an empty queue, after any run of frames the queue holds the latest window-many non-zero delta times, oldest first |
| Timelines.SmoothDeltaTime | Assets/Ludiq/Ludiq.Chronos/Source/Timeline.cs:225-228 | the smoothed delta is the mean of the current delta and the queued ones: times their count it is their sum, and with an empty queue it is the current delta |
| Timelines.SmoothDeltaTimeBounds | Assets/Ludiq/Ludiq.Chronos/Source/Timeline.cs:226-229 | the smoothed delta lies within any bounds of the deltas it averages |
| Timelines.FoldAreas | Assets/Ludiq/Ludiq.Chronos/Source/Timeline.cs:58-77 | destroyed area clocks are skipped; the loop throws exactly when some live area clock throws, and then with that clock's error |
| Timelines.FoldOfMultiplicative | Assets/Ludiq/Ludiq.Chronos/Source/Timeline.cs:58-77 | instant multiplicative area clocks multiply the clock's scale by the product of their scales |
| Timelines.FoldOfAdditive | Assets/Ludiq/Ludiq.Chronos/Source/Timeline.cs:58-77 | instant additive area clocks add the sum of their scales to the clock's scale |
| Timelines.FoldNeverThrowsWhenLinked | Assets/Ludiq/Ludiq.Chronos/Source/Timeline.cs:58-77 | with consistent occupancy and no negative padding, the loop never throws |
| Timelines.Capped | Assets/Ludiq/Ludiq.Chronos/Source/Timeline.cs:79-82 | a timeline that cannot rewind never gets a negative scale; otherwise the scale is kept |
| Timelines.Advance | Assets/Ludiq/Ludiq.Chronos/Source/Timeline.cs:52-105 | the messages for the last change are sent; the last scale is remembered; the new scale is the capped fold; an area clock's throw stops the frame with the scale so far; otherwise delta time is the unscaled delta times the scale and time advances by it |
| Timelines.FireDue | Assets/Ludiq/Ludiq.Chronos/Source/Timeline.cs:109-116 | occurrences fire forward when the scale is positive, backward when it is negative, and none while paused; when the forward (backward) invariant held at an earlier (later) time, every listed occurrence between that time and now fires |
| Timelines.Update | Assets/Ludiq/Ludiq.Chronos/Source/Timeline.cs:52-118 | one frame: Advance, then FireDue unless an area clock threw; when the cursor invariant held at the previous time, every listed occurrence between the previous and the new time fires, in the direction time moved |
| Timelines.NonRewindableNeverRewinds | Assets/Ludiq/Ludiq.Chronos/Source/Timeline.cs:79-82 | a timeline that cannot rewind never runs backward, whatever its clocks say |
| Timelines.ReleaseEach | Assets/Ludiq/Ludiq.Chronos/Source/Timeline.cs:310-313 | each live area clock of the list forgets the timeline; other timelines' lists are unchanged |
| Timelines.ReleaseFromAll | Assets/Ludiq/Ludiq.Chronos/Source/Timeline.cs:308-316 | the timeline is released from every live area clock it lists, then its list is emptied |
| Timelines.ReleaseFromAllDetaches | Assets/Ludiq/Ludiq.Chronos/Source/Timeline.cs:308-316 | afterwards no area clock holds the timeline, and occupancy stays consistent |
| Timelines.Reset | Assets/Ludiq/Ludiq.Chronos/Source/Timeline.cs:127-136 | both scales return to 1; the smoothing queue, the occurrences and both cursors are cleared; time is kept |
| Timelines.ResetIsQuiet | Assets/Ludiq/Ludiq.Chronos/Source/Timeline.cs:127-136 | after a reset the next frame sends no message, and both cursor invariants hold at any time |
| Recorders.NewRecorder | Assets/Ludiq/Ludiq.Chronos/Source/RecorderTimeline.cs:16-20 | a new recorder has an empty buffer of capacity 0, and last scale 1 from the field initialiser at line 57 |
| Recorders.Record | Assets/Ludiq/Ludiq.Chronos/Source/RecorderTimeline.cs:112-129 | nothing on a timeline that cannot rewind; on one that can, it throws exactly when the buffer has capacity 0; otherwise the buffer keeps the newest entries up to its capacity, ending with the current state at the current time |
| Recorders.Progress | Assets/Ludiq/Ludiq.Chronos/Source/RecorderTimeline.cs:97-107 | it records when the timer has reached the interval and restarts the timer, then adds the frame's delta time; a bounded buffer stays bounded |
| Recorders.TryFindEarlierSnapshot | Assets/Ludiq/Ludiq.Chronos/Source/RecorderTimeline.cs:177-202 | with pop, the newest entry becomes the later pair; the newest remaining entry becomes the earlier pair; it fails exactly when too few entries remain |
| Recorders.Rewind | Assets/Ludiq/Ludiq.Chronos/Source/RecorderTimeline.cs:131-157 | between the pairs it applies the interpolation; past the earlier pair it pops one entry; once exhausted it applies the earliest state, stops rewinding and sends OnExhaustRewind |
| Recorders.Update | Assets/Ludiq/Ludiq.Chronos/Source/RecorderTimeline.cs:27-49 | the first rewind frame takes the current state as the later snapshot without popping; it progresses forward, rewinds backward and remembers the scale |
| Recorders.StartRewind | Assets/Ludiq/Ludiq.Chronos/Source/RecorderTimeline.cs:31-37 | the later pair is the current state at the current time; it can rewind exactly when the buffer is non-empty, with the newest entry as the earlier pair |
| Recorders.RewindAll | Assets/Ludiq/Ludiq.Chronos/Source/RecorderTimeline.cs:131-157 | over any run of rewind frames, the buffer only ever loses entries from its end |
| Recorders.RewindPopsAtMostOne | Assets/Ludiq/Ludiq.Chronos/Source/RecorderTimeline.cs:131-157 | each rewind frame pops at most one entry, so n frames lose at most n entries |
| Recorders.RecordThenPop | Assets/Ludiq/Ludiq.Chronos/Source/RecorderTimeline.cs:112-202 | recording into a buffer with room and then popping gives the buffer back, with the recorded state as the later pair |
| Recorders.Reset | Assets/Ludiq/Ludiq.Chronos/Source/RecorderTimeline.cs:207-230 | the last scale is set to 1 first; a duration below the interval, then a non-positive interval, throw; otherwise the buffer is emptied, sized to the ceiling of duration over interval, and the current state recorded if the timeline can rewind |
| Recorders.AvailableRewindDuration | Assets/Ludiq/Ludiq.Chronos/Source/RecorderTimeline.cs:80-91 | zero once exhausted or empty; otherwise the time since the oldest entry, never negative |
| Recorders.NothingToRewindAfterReset | Assets/Ludiq/Ludiq.Chronos/Source/RecorderTimeline.cs:80-91 | right after a reset there is nothing to rewind |
| Recorders.ModifySnapshots | Assets/Ludiq/Ludiq.Chronos/Source/RecorderTimeline.cs:235-241 | every snapshot is rewritten by the modifier given its time; nothing else changes |
| Recorders.PowerOfTwoCeilingUnique | Assets/Ludiq/Ludiq.Chronos/Source/RecorderTimeline.cs:247-256 | the least power of two not below n is unique |
| Recorders.EstimateMemoryUsage | Assets/Ludiq/Ludiq.Chronos/Source/RecorderTimeline.cs:247-256 | the snapshots' size plus one pointer for each slot of the least power-of-two capacity that holds them |
| Rigidbodies.Halt | Assets/Ludiq/Ludiq.Chronos/Source/Timelines/RigidbodyTimeline.cs:20-39 | on arriving at a halt, it keeps the current state (coming from forward) or the interpolated one (coming from a rewindable rewind), and the time; on any other frame nothing changes |
| Rigidbodies.Transition | Assets/Ludiq/Ludiq.Chronos/Source/Timelines/RigidbodyTimeline.cs:41-76 | starting a pause or rewind makes the body manual and leaves its state alone, and a rewind starts without popping; resuming hands the body back, applies the snapshot captured at the halt or the interpolated one (pose, velocities, drags and divisor; a rewind on a timeline that cannot rewind applies nothing), wakes it and records that state |
| Rigidbodies.Retune | Assets/Ludiq/Ludiq.Chronos/Source/Timelines/RigidbodyTimeline.cs:78-88 | a new positive scale on a non-manual body multiplies its velocities and drags by new scale over last positive scale; otherwise nothing changes |
| Rigidbodies.Run | Assets/Ludiq/Ludiq.Chronos/Source/Timelines/RigidbodyTimeline.cs:90-106 | forward it hands the body back, progresses, and the scale becomes the divisor; backward it rewinds, and each interpolated snapshot is applied with its pose, drags and divisor while the body keeps its own velocities; a pause changes only the last scale; a rewind and a valid interpolation keep every divisor positive |
| Rigidbodies.Update | Assets/Ludiq/Ludiq.Chronos/Source/Timelines/RigidbodyTimeline.cs:16-107 | snapshots stay paired with times; every divisor the body can come back to stays positive, on a rewinding frame provided the interpolation keeps it positive |
| Rigidbodies.NewBody | Assets/Ludiq/Ludiq.Chronos/Source/Timelines/RigidbodyTimeline.cs:111 | a new body starts with 1 as its last positive scale, its given pose and motion, an empty buffer and last scale 1 |
| Rigidbodies.ApplySnapshot | Assets/Ludiq/Ludiq.Chronos/Source/Timelines/RigidbodyTimeline3D.cs:93-127 | pose, drags and divisor come from the snapshot; the velocities too when time runs forward, otherwise the body keeps its own |
| Rigidbodies.ApplySnapshotCopies | Assets/Ludiq/Ludiq.Chronos/Source/Timelines/RigidbodyTimeline3D.cs:76-127 | copying after applying gives the snapshot back exactly when time runs forward or the velocities already agree; applying the current state changes nothing; applying twice is applying once |
| Rigidbodies.FrameHalts | Assets/Ludiq/Ludiq.Chronos/Source/Timelines/RigidbodyTimeline.cs:20-51 | a halt captures the state (current or interpolated) and the time; pausing or rewinding forces manual; a paused frame changes only the last scale |
| Rigidbodies.FrameRewinds | Assets/Ludiq/Ludiq.Chronos/Source/Timelines/RigidbodyTimeline.cs:41-106 | a rewinding frame keeps the body's velocities and applies the interpolated snapshot (after a first rewind frame with no earlier snapshot, the body's own state) |
| Rigidbodies.FrameRuns | Assets/Ludiq/Ludiq.Chronos/Source/Timelines/RigidbodyTimeline.cs:90-106 | a forward frame makes the scale the divisor and hands the body back; it can only throw when recording before the first reset |
| Rigidbodies.UpdateFrame | Assets/Ludiq/Ludiq.Chronos/Source/Timelines/RigidbodyTimeline.cs:16-107 | the last scale becomes the timeline's scale and a positive one the divisor; a halt captures state and time; pause or rewind forces manual; a paused frame leaves state and buffer alone; a rewinding frame keeps the velocities and takes pose, drags and divisor from the interpolated snapshot; only recording before the first reset throws |
| Rigidbodies.ResumeAppliesAndRecords | Assets/Ludiq/Ludiq.Chronos/Source/Timelines/RigidbodyTimeline.cs:53-106 | on resume the body takes the pose, motion and divisor of the state captured at the halt (after a pause) or the interpolated one (after a rewind); an engine-driven body's motion is then rescaled from that divisor to the new scale; that state is recorded, followed by the rescaled state if the interval has elapsed |
| Rigidbodies.RetuneScalesMotion | Assets/Ludiq/Ludiq.Chronos/Source/Timelines/RigidbodyTimeline.cs:78-88 | both directions: velocities and drags are rescaled by new scale over the divisor of the state the frame starts from (after any resume) exactly on a positive change for a non-manual body; on other forward or paused frames they are that state's |
| Rigidbodies.SpeedChangeRoundTrip | Assets/Ludiq/Ludiq.Chronos/Source/Timelines/RigidbodyTimeline.cs:78-106 | changing from a steady scale to another and back restores the exact velocities and drags, and the divisor |
| Rigidbodies.PauseThenResumeRestores | Assets/Ludiq/Ludiq.Chronos/Source/Timelines/RigidbodyTimeline.cs:20-106 | a pause followed by a resume brings back the pose at the halt, with the motion at the halt rescaled from its divisor to the new scale; resumed at the old scale, the whole state at the halt comes back |
| Rigidbodies.Reset | Assets/Ludiq/Ludiq.Chronos/Source/Timelines/RigidbodyTimeline.cs:120-125 | the divisor returns to 1 before the recorder resets, so the one snapshot the reset records carries 1; the recorder's errors pass through |
| Rigidbodies.ModifySnapshots | Assets/Ludiq/Ludiq.Chronos/Source/Timelines/RigidbodyTimeline.cs:127-132 | the recorded snapshots and the halt snapshot are all rewritten by the modifier; a modifier that keeps divisors positive keeps the body valid |
| Rigidbodies.SetDrag | Assets/Ludiq/Ludiq.Chronos/Source/Timelines/RigidbodyTimeline.cs:162-166 | ignored unless time runs forward; only the drag changes |
| Rigidbodies.SetAngularDrag | Assets/Ludiq/Ludiq.Chronos/Source/Timelines/RigidbodyTimeline.cs:171-175 | ignored unless time runs forward; only the angular drag changes |
| Rigidbodies.Drag | Assets/Ludiq/Ludiq.Chronos/Source/Timelines/RigidbodyTimeline.cs:162-166 | the drag read back is finite exactly when the time scale is not zero; at scale 0 it is infinite or NaN |
| Rigidbodies.AngularDrag | Assets/Ludiq/Ludiq.Chronos/Source/Timelines/RigidbodyTimeline.cs:171-175 | the angular drag read back is finite exactly when the time scale is not zero |
| Rigidbodies.DragRoundTrip | Assets/Ludiq/Ludiq.Chronos/Source/Timelines/RigidbodyTimeline.cs:162-175 | while time runs forward, reading a drag gives back the value set, and setting one drag leaves the other alone |
| Rigidbodies.AdjustForce | Assets/Ludiq/Ludiq.Chronos/Source/Timelines/RigidbodyTimeline.cs:177-190 | a force is scaled by the time scale: nothing when paused, unchanged at scale 1 |
| Rigidbodies.AdjustForceInverse | Assets/Ludiq/Ludiq.Chronos/Source/Timelines/RigidbodyTimeline.cs:177-190 | AdjustForce loses nothing at a non-zero scale: the inverse scale recovers the force, the convention the drag setter and getter share |
| Severities.AssertForward | Assets/Ludiq/Ludiq.Chronos/Source/Timelines/RigidbodyTimeline.cs:192-224 | true exactly when time runs forward; throws NotForward only at Error severity and only when time does not run forward |
| Particles.StatePredicatesPartition | Assets/Ludiq/Ludiq.Chronos/Source/Timelines/RewindableParticleSystemTimeline.cs:29-42 | exactly one of isPlaying, isPaused and isStopped holds |
| Particles.SetState | Assets/Ludiq/Ludiq.Chronos/Source/Timelines/RewindableParticleSystemTimeline.cs:122-135 | throws exactly when time does not run forward; otherwise the state is set, and an event with the timeline's time is pushed only on a change; the stack stays in agreement with the state |
| Particles.SetEnableEmission | Assets/Ludiq/Ludiq.Chronos/Source/Timelines/RewindableParticleSystemTimeline.cs:139-157 | ignored unless time runs forward; true to false logs DisableEmission, false to true logs EnableEmission, both at the simulation time; an unchanged value logs nothing |
| Particles.PlaySystem | Assets/Ludiq/Ludiq.Chronos/Source/Timelines/RewindableParticleSystemTimeline.cs:285-301 | ignored unless time runs forward; unless resuming from a pause it logs Play and restarts the relative clock; the state becomes Playing |
| Particles.PauseSystem | Assets/Ludiq/Ludiq.Chronos/Source/Timelines/RewindableParticleSystemTimeline.cs:303-313 | ignored unless time runs forward; the state becomes Paused and nothing is logged |
| Particles.StopSystem | Assets/Ludiq/Ludiq.Chronos/Source/Timelines/RewindableParticleSystemTimeline.cs:315-327 | ignored unless time runs forward; the state becomes Stopping and Stop is logged |
| Particles.IsAlive | Assets/Ludiq/Ludiq.Chronos/Source/Timelines/RewindableParticleSystemTimeline.cs:329-342 | alive exactly when not stopped and, with children, every child is alive |
| Particles.WritesOnlyForward | Assets/Ludiq/Ludiq.Chronos/Source/Timelines/RewindableParticleSystemTimeline.cs:412-446 | while paused or rewinding, Play, Pause, Stop and the emission setter change nothing, and the state setter throws |
| Particles.CopyProperties | Assets/Ludiq/Ludiq.Chronos/Source/Timelines/RewindableParticleSystemTimeline.cs:163-171 | throws unless time runs forward; the start state goes through the setter, so a Stopped start pushes one event; the stack agrees with the state; the emission log starts empty |
| Particles.PopState | Assets/Ludiq/Ludiq.Chronos/Source/Timelines/RewindableParticleSystemTimeline.cs:191-208 | once the timeline's time is back at or before the newest event, that event is popped and the state follows the new newest event (or the start state), so the stack keeps agreeing with the state; otherwise nothing changes |
| Particles.PopStateAsWritten | Assets/Ludiq/Ludiq.Chronos/Source/Timelines/RewindableParticleSystemTimeline.cs:191-208 | as written, the entry removed is the first one equal to the newest event |
| Particles.PopUndoesSetState | Assets/Ludiq/Ludiq.Chronos/Source/Timelines/RewindableParticleSystemTimeline.cs:122-208 | a state change followed by a rewind to its time restores the previous state and stack |
| Particles.KeptEmissionsMembers | Assets/Ludiq/Ludiq.Chronos/Source/Timelines/RewindableParticleSystemTimeline.cs:212-218 | exactly the emission events not later than the simulation time survive |
| Particles.KeptEmissionsAppend | Assets/Ludiq/Ludiq.Chronos/Source/Timelines/RewindableParticleSystemTimeline.cs:212-218 | filtering distributes over concatenation, so survivors keep their order |
| Particles.DropLaterEmissions | Assets/Ludiq/Ludiq.Chronos/Source/Timelines/RewindableParticleSystemTimeline.cs:212-218 | the loop from the end with RemoveAt keeps exactly the events not later than the simulation time, in order |
| Particles.Rewind | Assets/Ludiq/Ludiq.Chronos/Source/Timelines/RewindableParticleSystemTimeline.cs:187-219 | while rewinding, at most one state event is popped and the future emission events are dropped; nothing else changes, and nothing at all when not rewinding |
| Particles.RewindAsWritten | Assets/Ludiq/Ludiq.Chronos/Source/Timelines/RewindableParticleSystemTimeline.cs:187-219 | the same with the source's removal of the first equal entry |
| Particles.PopStateAsWrittenRestoresWrongState | Assets/Ludiq/Ludiq.Chronos/Source/Timelines/RewindableParticleSystemTimeline.cs:191-208 | after Play, Pause, Play in one frame, one rewind frame as written restores Playing; popping the newest event restores Paused |

## Left out

- Unity's lifecycle: OnStartOrReEnable, Awake ordering, FindClock and the timeline mode (local or global clock) are engine wiring. The model takes the clock's scale as an input.
- The unreachable "Unknown area clock mode" branch of AreaClock.TimeScale: the mode is an enum, so the match is total.
- Occurrence callbacks: firing is logged in `fired` instead of running user code. Callbacks are assumed not to re-enter the timeline.
- Timeline.handledOccurrences: the model keeps it local to each trigger call. The source clears it before each trigger loop and never reads it elsewhere.
- AdjustProperties calls on components after a scale change: the components are one-line writes to engine properties.
- The per-component base.Update and Reset: modelled once for each component (Recorders, Rigidbodies, Particles) instead of through the component list.
- Single-precision float rounding, NaN and infinity: reals are exact. Only the divisions that can hit zero (snapshot interpolation, the drag getters) return a `Quotient` that names the infinite and NaN cases.
- Recorders.EstimateMemoryUsage: requires a positive interval, because the float division by zero has no integer result. The 32-bit overflow of the byte count is not modelled.
- AreaClocks.DistanceFromEntryTimeScale: requires a non-negative distance, since the source passes a vector magnitude.
- NavMeshAgent destination saving on halt and restoring on resume, and WakeUp beyond a counter: they are engine calls.
- Debug.LogWarning at Warn severity: a log line with no effect on state.
- Recorder snapshot fields that C# leaves at their default are initialised to the current state, because the snapshot type is generic.
- The particle simulation in RewindableParticleSystemTimeline.Update (lines 221-278): this covers Simulate, the particle count, the advance of absoluteSimulationTime, the Playing-to-Stopping transition at the end of the duration, and the looped-time modulo. It depends on the engine's particle state.
- The particle time property, playbackSpeed, the random seed set in CopyProperties, and child propagation (ExecuteOnChildren, CheckOnChildren): child liveness is an input of IsAlive.
- RigidbodyTimeline.mass: a plain pass-through to the engine property.
- Rigidbodies.Run: keeps every divisor positive on a rewinding frame only for an interpolation that keeps it positive (`LerpKeepsDivisor`). Mathf.Lerp's clamped factor does. The NaN factor of two snapshots recorded at the same time is not modelled.
- Rigidbodies.Update: promises positive divisors on a rewinding frame under the same condition as Run.
- Rigidbodies.ModifySnapshots: promises validity only for a modifier that keeps divisors positive. A user modifier that writes a zero divisor would make the next rescaling divide by zero.
- Rigidbodies.NewBody: the halt snapshot starts as the current state rather than C#'s zero struct, whose divisor is 0. The zero struct is applied only on resuming from a pause that began during a rewind after the timeline stopped being rewindable.
- The snapshot pose (position and rotation, 3D or 2D) is a type parameter, and its interpolation is the `lerp` parameter. The NavMeshAgent velocity and Warp in CopySnapshot and ApplySnapshot are engine calls.
- RecordSmoothing: the window is a natural number. A negative smoothingDeltas, which makes the source dequeue from an empty queue and throw, is not modelled.
- Timeline.rewindable setter's component re-caching, WaitForSeconds coroutines and the component adapters (audio, animator, nav mesh and others).

## Findings

| source | as written | input that shows it | evidently intended | confidence | as-written member | corrected member |
|---|---|---|---|---|---|---|
| Assets/Ludiq/Ludiq.Chronos/Source/Timeline.cs:655-659 | Reschedule sets the new time and places the occurrence as if new. A forward cursor already on that occurrence stays on it, even when the new time is later than another pending occurrence. | A at 5 and B at 7, now 0, forward cursor on A; Postpone(A, 10). The cursor stays on A at 10. Moving forward fires A at 10 and then searches only at or after 10, so B never fires. | Repair the cursors first, as Cancel does, then place the occurrence; the cursor then moves to B. | not executed; high | Occurrences.RescheduleAsWritten, Occurrences.RescheduleAsWrittenSkipsOccurrence, Occurrences.Postpone | Occurrences.Reschedule, Occurrences.RescheduleKeepsCursorsReady, Occurrences.PostponeRepaired |
| Assets/Ludiq/Ludiq.Chronos/Source/Timelines/RewindableParticleSystemTimeline.cs:197 | Rewind pops the newest state event with List.Remove. That removes the first entry equal to it, and the entries are structs compared by value. | Not playing on awake, at time 1: Play, Pause, Play in one frame give events (Stopped,1), (Playing,1), (Paused,1), (Playing,1). One rewind frame at time 1 removes the second entry and the system comes back Playing. | Remove the newest entry (RemoveAt of the last index), which restores Paused. | not executed; high | Particles.PopStateAsWritten, Particles.PopStateAsWrittenRestoresWrongState | Particles.PopState, Particles.PopUndoesSetState |
