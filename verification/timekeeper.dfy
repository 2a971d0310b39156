/** Timekeeper.cs and TimeState.cs: the registry of global clocks by key, the five-way
    classification of a time scale, and the frame delta every clock advances by. */
module Timekeepers {
  import opened Wrappers
  import opened Handles
  import opened GlobalClocks

  /** TimeState: how time flows at a given scale. */
  datatype TimeState = Accelerated | Normal | Slowed | Paused | Reversed

  /** GetTimeState: a total classification, exactly one state per scale. */
  function GetTimeState(timeScale: real): (r: TimeState)
    ensures r == Reversed <==> timeScale < 0.0
    ensures r == Paused <==> timeScale == 0.0
    ensures r == Slowed <==> 0.0 < timeScale < 1.0
    ensures r == Normal <==> timeScale == 1.0
    ensures r == Accelerated <==> timeScale > 1.0
  {
    if timeScale < 0.0 then Reversed
    else if timeScale == 0.0 then Paused
    else if timeScale < 1.0 then Slowed
    else if timeScale == 1.0 then Normal
    else Accelerated
  }

  /** The frame delta used during the first frames, whose real delta is unreliable. */
  const StartupDelta: real := 0.02

  /** unscaledDeltaTime, with Time.frameCount, Time.unscaledDeltaTime and
      Time.maximumDeltaTime as parameters. After the start-up frames, the delta is capped
      at the maximum. */
  function UnscaledDeltaTime(frameCount: int, unscaledDelta: real, maximumDelta: real): (r: real)
    ensures frameCount <= 2 ==> r == StartupDelta
    ensures frameCount > 2 ==> r <= unscaledDelta && r <= maximumDelta
    ensures frameCount > 2 ==> r == unscaledDelta || r == maximumDelta
  {
    if frameCount <= 2 then StartupDelta
    else if unscaledDelta <= maximumDelta then unscaledDelta else maximumDelta
  }

  /** The registry: key to global clock. */
  datatype Timekeeper = Timekeeper(clocks: map<string, ClockId>)

  /** The constructor: no clocks yet. */
  function NewTimekeeper(): Timekeeper {
    Timekeeper(map[])
  }

  function HasClock(k: Timekeeper, key: Option<string>): (r: Result<bool>)
    ensures r.Err? <==> key.None?
    ensures r.Err? ==> r.error == ArgumentNull("key")
    ensures r.Ok? ==> (r.value <==> key.value in k.clocks)
  {
    if key.None? then Err(ArgumentNull("key")) else Ok(key.value in k.clocks)
  }

  /** Clock(key): the global clock registered under a key. */
  function GetClock(k: Timekeeper, key: Option<string>): (r: Result<ClockId>)
    ensures key.None? ==> r == Err(ArgumentNull("key"))
    ensures key.Some? && key.value !in k.clocks ==> r == Err(Chronos(UnknownClock))
    ensures key.Some? && key.value in k.clocks ==> r == Ok(k.clocks[key.value])
  {
    if key.None? then Err(ArgumentNull("key"))
    else if HasClock(k, key).value then Ok(k.clocks[key.value])
    else Err(Chronos(UnknownClock))
  }

  /** AddClock. `component` is the identity of the GlobalClock component the call attaches; the
      call returns the updated registry together with that new clock, whose key is set. */
  function AddClock(k: Timekeeper, key: Option<string>, component: ClockId): (r: Result<(Timekeeper, GlobalClock)>)
    ensures key.None? ==> r == Err(ArgumentNull("key"))
    ensures key.Some? && key.value in k.clocks ==> r == Err(Chronos(DuplicateClock))
    ensures r.Ok? <==> key.Some? && key.value !in k.clocks
    ensures r.Ok? ==> r.value.1.key == key && r.value.1.clocks == {} && r.value.1.timelines == {}
    ensures r.Ok? ==> r.value.0.clocks.Keys == k.clocks.Keys + {key.value}
    ensures r.Ok? ==> r.value.0.clocks[key.value] == component
    ensures r.Ok? ==> forall other :: other in k.clocks ==> r.value.0.clocks[other] == k.clocks[other]
  {
    if key.None? then Err(ArgumentNull("key"))
    else if HasClock(k, key).value then Err(Chronos(DuplicateClock))
    else Ok((Timekeeper(k.clocks[key.value := component]), New(key)))
  }

  function RemoveClock(k: Timekeeper, key: Option<string>): (r: Result<Timekeeper>)
    ensures key.None? ==> r == Err(ArgumentNull("key"))
    ensures key.Some? && key.value !in k.clocks ==> r == Err(Chronos(UnknownClock))
    ensures r.Ok? <==> key.Some? && key.value in k.clocks
    ensures r.Ok? ==> r.value.clocks.Keys == k.clocks.Keys - {key.value}
    ensures r.Ok? ==> forall other :: other in r.value.clocks ==> r.value.clocks[other] == k.clocks[other]
  {
    if key.None? then Err(ArgumentNull("key"))
    else if !HasClock(k, key).value then Err(Chronos(UnknownClock))
    else Ok(Timekeeper(k.clocks - {key.value}))
  }

  /** Adding a clock and removing it again restores the registry. */
  lemma AddThenRemove(k: Timekeeper, key: string, component: ClockId)
    requires key !in k.clocks
    ensures AddClock(k, Some(key), component).Ok?
    ensures RemoveClock(AddClock(k, Some(key), component).value.0, Some(key)) == Ok(k)
  {
    assert k.clocks[key := component] - {key} == k.clocks;
  }

  /** After AddClock, the key is known and looks up the new clock; after RemoveClock it is
      unknown again. */
  lemma AddThenLookUp(k: Timekeeper, key: string, component: ClockId)
    requires key !in k.clocks
    ensures var withKey := AddClock(k, Some(key), component).value.0;
            HasClock(withKey, Some(key)) == Ok(true) && GetClock(withKey, Some(key)) == Ok(component)
    ensures var removed := RemoveClock(AddClock(k, Some(key), component).value.0, Some(key)).value;
            HasClock(removed, Some(key)) == Ok(false) && GetClock(removed, Some(key)) == Err(Chronos(UnknownClock))
  {
    AddThenRemove(k, key, component);
  }

  // ---------------------------------------------------------------------------------------
  // Awake: registering the global clocks attached to the timekeeper's object

  /** Every attached clock has a key, no key is already registered and no two clocks share
      one: Dictionary.Add accepts them all. */
  predicate Registrable(m: map<string, ClockId>, attached: seq<(ClockId, GlobalClock)>) {
    && (forall i :: 0 <= i < |attached| ==> attached[i].1.key.Some? && attached[i].1.key.value !in m)
    && (forall i, j :: 0 <= i < j < |attached| ==> attached[i].1.key != attached[j].1.key)
  }

  /** The registry after adding the attached clocks one by one, in order. */
  function Registered(m: map<string, ClockId>, attached: seq<(ClockId, GlobalClock)>): map<string, ClockId>
    requires forall i :: 0 <= i < |attached| ==> attached[i].1.key.Some?
    decreases |attached|
  {
    if |attached| == 0 then m
    else
      var last := attached[|attached| - 1];
      Registered(m, attached[..|attached| - 1])[last.1.key.value := last.0]
  }

  /** The keys of the attached clocks. */
  function KeysOf(attached: seq<(ClockId, GlobalClock)>): (r: set<string>)
    requires forall i :: 0 <= i < |attached| ==> attached[i].1.key.Some?
    ensures forall i :: 0 <= i < |attached| ==> attached[i].1.key.value in r
    ensures forall key :: key in r ==> exists i :: 0 <= i < |attached| && attached[i].1.key == Some(key)
    decreases |attached|
  {
    if |attached| == 0 then {}
    else KeysOf(attached[..|attached| - 1]) + {attached[|attached| - 1].1.key.value}
  }

  /** What the registration yields: each attached clock under its own key, the earlier
      entries untouched, and no other key. */
  lemma {:induction false} RegisteredContents(m: map<string, ClockId>, attached: seq<(ClockId, GlobalClock)>)
    requires Registrable(m, attached)
    ensures Registered(m, attached).Keys == m.Keys + KeysOf(attached)
    ensures forall i :: 0 <= i < |attached| ==> Registered(m, attached)[attached[i].1.key.value] == attached[i].0
    ensures forall key :: key in m ==> Registered(m, attached)[key] == m[key]
    decreases |attached|
  {
    if |attached| > 0 {
      var n := |attached|;
      var init := attached[..n - 1];
      assert Registrable(m, init) by {
        forall i | 0 <= i < n - 1 ensures init[i] == attached[i] { }
      }
      RegisteredContents(m, init);
      RegisteredStep(m, attached);
    }
  }

  /** The three facts of RegisteredContents about a registry `after`. */
  ghost predicate HoldsAll(m: map<string, ClockId>, attached: seq<(ClockId, GlobalClock)>, after: map<string, ClockId>)
    requires forall i :: 0 <= i < |attached| ==> attached[i].1.key.Some?
  {
    && after.Keys == m.Keys + KeysOf(attached)
    && (forall i :: 0 <= i < |attached| ==> after[attached[i].1.key.value] == attached[i].0)
    && (forall key :: key in m ==> after[key] == m[key])
  }

  /** The inductive step of RegisteredContents: adding the last clock under its fresh key. */
  lemma RegisteredStep(m: map<string, ClockId>, attached: seq<(ClockId, GlobalClock)>)
    requires |attached| > 0 && Registrable(m, attached)
    requires HoldsAll(m, attached[..|attached| - 1], Registered(m, attached[..|attached| - 1]))
    ensures HoldsAll(m, attached, Registered(m, attached))
  {
    var n := |attached|;
    var init, last := attached[..n - 1], attached[n - 1];
    var before, after := Registered(m, init), Registered(m, attached);
    assert after == before[last.1.key.value := last.0];
    assert after.Keys == m.Keys + KeysOf(attached) by {
      assert KeysOf(attached) == KeysOf(init) + {last.1.key.value};
    }
    forall i | 0 <= i < n - 1 ensures after[attached[i].1.key.value] == attached[i].0 {
      assert init[i] == attached[i];
      assert attached[i].1.key != last.1.key;
    }
    forall key | key in m ensures after[key] == m[key] {
      assert key != last.1.key.value;
    }
  }

  /** One more clock can be registered exactly when it has a key not registered yet. */
  lemma RegistrableExtend(m: map<string, ClockId>, done: seq<(ClockId, GlobalClock)>, c: (ClockId, GlobalClock))
    requires Registrable(m, done)
    ensures Registrable(m, done + [c]) <==> c.1.key.Some? && c.1.key.value !in Registered(m, done)
    ensures c.1.key.Some? ==> Registered(m, done + [c]) == Registered(m, done)[c.1.key.value := c.0]
  {
    var next := done + [c];
    assert next[..|done|] == done;
    if Registrable(m, next) {
      ExtendOnlyIfFresh(m, done, c);
    }
    if c.1.key.Some? && c.1.key.value !in Registered(m, done) {
      ExtendIfFresh(m, done, c);
    }
  }

  lemma ExtendOnlyIfFresh(m: map<string, ClockId>, done: seq<(ClockId, GlobalClock)>, c: (ClockId, GlobalClock))
    requires Registrable(m, done) && Registrable(m, done + [c])
    ensures c.1.key.Some? && c.1.key.value !in Registered(m, done)
  {
    var next := done + [c];
    assert next[|done|] == c;
    RegisteredContents(m, done);
    forall j | 0 <= j < |done| ensures done[j].1.key != c.1.key {
      assert next[j] == done[j];
    }
  }

  lemma ExtendIfFresh(m: map<string, ClockId>, done: seq<(ClockId, GlobalClock)>, c: (ClockId, GlobalClock))
    requires Registrable(m, done)
    requires c.1.key.Some? && c.1.key.value !in Registered(m, done)
    ensures Registrable(m, done + [c])
  {
    var next := done + [c];
    RegisteredContents(m, done);
    assert c.1.key.value !in m;
    assert next[|done|] == c;
    forall i | 0 <= i < |next| ensures next[i].1.key.Some? && next[i].1.key.value !in m {
      if i < |done| {
        assert next[i] == done[i];
      }
    }
    forall i, j | 0 <= i < j < |next| ensures next[i].1.key != next[j].1.key {
      assert next[i] == done[i];
      if j < |done| {
        assert next[j] == done[j];
      } else {
        assert done[i].1.key.value in KeysOf(done);
      }
    }
  }

  /** A prefix of a registrable sequence is registrable. */
  lemma RegistrablePrefix(m: map<string, ClockId>, attached: seq<(ClockId, GlobalClock)>, n: nat)
    requires n <= |attached|
    requires Registrable(m, attached)
    ensures Registrable(m, attached[..n])
  {
    forall j | 0 <= j < n ensures attached[..n][j] == attached[j] { }
  }

  /** Awake. It registers the attached clocks in order and stops at the first one without a
      key (ArgumentNullException) or with a key already present (ArgumentException); the
      clocks before it stay registered. `count` is how many were registered. */
  method Awake(k: Timekeeper, attached: seq<(ClockId, GlobalClock)>) returns (r: Completion<Timekeeper>, count: nat)
    ensures count <= |attached|
    ensures Registrable(k.clocks, attached[..count])
    ensures r.state.clocks == Registered(k.clocks, attached[..count])
    ensures r.Returned? <==> Registrable(k.clocks, attached)
    ensures r.Returned? ==> count == |attached|
    ensures r.Threw? ==> count < |attached| && !Registrable(k.clocks, attached[..count + 1])
    ensures r.Threw? ==> (r.error == ArgumentNull("key") <==> attached[count].1.key.None?)
    ensures r.Threw? && attached[count].1.key.Some? ==> r.error == InvalidArgument("key")
  {
    var m := k.clocks;
    var i := 0;
    while i < |attached|
      invariant 0 <= i <= |attached|
      invariant Registrable(k.clocks, attached[..i])
      invariant m == Registered(k.clocks, attached[..i])
    {
      var key := attached[i].1.key;
      assert attached[..i + 1] == attached[..i] + [attached[i]];
      RegistrableExtend(k.clocks, attached[..i], attached[i]);
      if key.None? || key.value in m {
        if Registrable(k.clocks, attached) {
          RegistrablePrefix(k.clocks, attached, i + 1);
        }
        var error := if key.None? then ArgumentNull("key") else InvalidArgument("key");
        return Threw(error, Timekeeper(m)), i;
      }
      m := m[key.value := attached[i].0];
      i := i + 1;
    }
    assert attached[..i] == attached;
    return Returned(Timekeeper(m)), i;
  }
}
