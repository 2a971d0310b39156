/** Clock.cs: the common timing state of every clock, how it derives its effective time
    scale from its own settings and its parent's scale, the smooth ramp of the local scale,
    the per-frame time advance, and re-parenting under a global clock. */
module Clocks {
  import opened Wrappers
  import opened Handles
  import opened Mathf
  import opened GlobalClocks

  /** ClockBlend: how a scale combines with the one it is nested in. */
  datatype ClockBlend = Multiplicative | Additive

  datatype Clock = Clock(
    localTimeScale: real,
    paused: bool,
    parentKey: Option<string>,
    parent: Option<ClockId>,
    parentBlend: ClockBlend,
    timeScale: real,
    time: real,
    unscaledTime: real,
    deltaTime: real,
    fixedDeltaTime: real,
    isLerping: bool,
    lerpStart: real,
    lerpEnd: real,
    lerpFrom: real,
    lerpTo: real)

  /** A clock as the component starts out: local scale 1, multiplicative blend, no parent. */
  function NewClock(): Clock {
    Clock(1.0, false, None, None, Multiplicative, 0.0, 0.0, 0.0, 0.0, 0.0, false, 0.0, 0.0, 0.0, 0.0)
  }

  /** A running ramp has a non-empty window, so the elapsed fraction is defined. */
  predicate Valid(c: Clock) {
    c.isLerping ==> c.lerpStart < c.lerpEnd
  }

  // ---------------------------------------------------------------------------------------
  // Effective time scale

  /** ComputeTimeScale. `parentTimeScale` is the parent's current timeScale; it is read only
      when the clock has a parent. Only the timeScale field changes. */
  function ComputeTimeScale(c: Clock, parentTimeScale: real): (r: Clock)
    ensures r == c.(timeScale := r.timeScale)
    ensures c.paused ==> r.timeScale == 0.0
    ensures !c.paused && c.parent.None? ==> r.timeScale == c.localTimeScale
    ensures !c.paused && c.parent.Some? && c.parentBlend == Multiplicative ==>
              r.timeScale == parentTimeScale * c.localTimeScale
    ensures !c.paused && c.parent.Some? && c.parentBlend == Additive ==>
              r.timeScale == parentTimeScale + c.localTimeScale
  {
    var scale :=
      if c.paused then 0.0
      else if c.parent.None? then c.localTimeScale
      else if c.parentBlend == Multiplicative then parentTimeScale * c.localTimeScale
      else parentTimeScale + c.localTimeScale;
    c.(timeScale := scale)
  }

  /** A chain of clocks, root first: the root has no parent, every other clock is parented
      (to the clock before it). */
  predicate IsChain(chain: seq<Clock>) {
    && |chain| > 0
    && chain[0].parent.None?
    && forall i :: 0 < i < |chain| ==> chain[i].parent.Some?
  }

  /** The time scale of the last clock of a chain when every clock is computed after its
      parent, as the per-frame update order guarantees. */
  function ChainTimeScale(chain: seq<Clock>): real
    requires IsChain(chain)
    decreases |chain|
  {
    var last := chain[|chain| - 1];
    if |chain| == 1 then ComputeTimeScale(last, 0.0).timeScale
    else ComputeTimeScale(last, ChainTimeScale(chain[..|chain| - 1])).timeScale
  }

  function LocalScales(chain: seq<Clock>): (r: seq<real>)
    ensures |r| == |chain|
    ensures forall i :: 0 <= i < |chain| ==> r[i] == chain[i].localTimeScale
  {
    seq(|chain|, i requires 0 <= i < |chain| => chain[i].localTimeScale)
  }

  predicate AllMultiplicative(chain: seq<Clock>) {
    forall i :: 0 < i < |chain| ==> chain[i].parentBlend == ClockBlend.Multiplicative
  }

  /** In a multiplicative chain with no clock paused, the effective scale is the product of
      all the local scales along the chain. */
  lemma {:induction false} MultiplicativeChainIsProduct(chain: seq<Clock>)
    requires IsChain(chain)
    requires AllMultiplicative(chain)
    requires forall i :: 0 <= i < |chain| ==> !chain[i].paused
    ensures ChainTimeScale(chain) == Product(LocalScales(chain))
  {
    var n := |chain|;
    if n == 1 {
      assert LocalScales(chain)[..0] == [];
    } else {
      var prefix := chain[..n - 1];
      assert IsChain(prefix);
      MultiplicativeChainIsProduct(prefix);
      assert LocalScales(chain)[..n - 1] == LocalScales(prefix);
    }
  }

  /** In a multiplicative chain, one paused clock stops every clock below it. */
  lemma {:induction false} PausedAncestorStopsChain(chain: seq<Clock>, k: nat)
    requires IsChain(chain)
    requires AllMultiplicative(chain)
    requires k < |chain| && chain[k].paused
    ensures ChainTimeScale(chain) == 0.0
  {
    var n := |chain|;
    if k == n - 1 {
    } else {
      var prefix := chain[..n - 1];
      assert IsChain(prefix);
      PausedAncestorStopsChain(prefix, k);
    }
  }

  // ---------------------------------------------------------------------------------------
  // Smooth change of the local time scale

  /** LerpTimeScale. A negative duration is refused before anything changes; a zero duration
      jumps to the target and cancels a running ramp; otherwise a ramp starts over
      duration x modifier seconds of unscaled time, where the modifier is the distance to
      travel for a steady ramp and 1 otherwise. A steady ramp to the current value starts
      nothing and leaves any running ramp alone. */
  function LerpTimeScale(c: Clock, target: real, duration: real, steady: bool): (r: Result<Clock>)
    ensures r.Err? <==> duration < 0.0
    ensures r.Err? ==> r.error == InvalidArgument("duration")
    ensures r.Ok? && Valid(c) ==> Valid(r.value)
    ensures duration == 0.0 ==> r == Ok(c.(localTimeScale := target, isLerping := false))
    ensures duration > 0.0 && steady && c.localTimeScale == target ==> r == Ok(c)
    ensures duration > 0.0 && (!steady || c.localTimeScale != target) ==>
              r.Ok? && r.value.isLerping
              && r.value.localTimeScale == c.localTimeScale
              && r.value.lerpFrom == c.localTimeScale && r.value.lerpTo == target
              && r.value.lerpStart == c.unscaledTime
              && r.value.lerpEnd == c.unscaledTime + duration * (if steady then Abs(c.localTimeScale - target) else 1.0)
              && r.value.lerpStart < r.value.lerpEnd
              && r.value == c.(isLerping := true, lerpStart := r.value.lerpStart, lerpEnd := r.value.lerpEnd,
                               lerpFrom := r.value.lerpFrom, lerpTo := r.value.lerpTo)
  {
    if duration < 0.0 then Err(InvalidArgument("duration"))
    else if duration == 0.0 then Ok(c.(localTimeScale := target, isLerping := false))
    else
      var modifier := if steady then Abs(c.localTimeScale - target) else 1.0;
      if modifier != 0.0 then
        MulPositive(duration, modifier);
        Ok(c.(lerpFrom := c.localTimeScale, lerpStart := c.unscaledTime, lerpTo := target,
              lerpEnd := c.unscaledTime + duration * modifier, isLerping := true))
      else Ok(c)
  }

  lemma MulPositive(x: real, y: real)
    requires x > 0.0 && y > 0.0
    ensures x * y > 0.0
  {
  }

  // ---------------------------------------------------------------------------------------
  // Per-frame update

  /** Update: advance the ramp, recompute the scale, then advance time. `unscaledDelta` is
      Timekeeper.unscaledDeltaTime and `fixedStep` is Time.fixedDeltaTime for this frame. */
  function Tick(c: Clock, parentTimeScale: real, unscaledDelta: real, fixedStep: real): (r: Clock)
    requires Valid(c)
    ensures Valid(r)
    // the ramp
    ensures r.lerpStart == c.lerpStart && r.lerpEnd == c.lerpEnd && r.lerpFrom == c.lerpFrom && r.lerpTo == c.lerpTo
    ensures !c.isLerping ==> !r.isLerping && r.localTimeScale == c.localTimeScale
    ensures c.isLerping && c.unscaledTime >= c.lerpEnd ==> !r.isLerping && r.localTimeScale == c.lerpTo
    ensures c.isLerping && c.unscaledTime < c.lerpEnd ==>
              r.isLerping
              && r.localTimeScale == Lerp(c.lerpFrom, c.lerpTo, (c.unscaledTime - c.lerpStart) / (c.lerpEnd - c.lerpStart))
    // the scale, from the ramped local scale
    ensures r.timeScale == ComputeTimeScale(c.(localTimeScale := r.localTimeScale), parentTimeScale).timeScale
    // the time advance
    ensures r.deltaTime == unscaledDelta * r.timeScale
    ensures r.fixedDeltaTime == fixedStep * r.timeScale
    ensures r.time == c.time + r.deltaTime
    ensures r.unscaledTime == c.unscaledTime + unscaledDelta
    ensures c.paused ==> r.time == c.time
    ensures r.paused == c.paused && r.parent == c.parent && r.parentKey == c.parentKey && r.parentBlend == c.parentBlend
  {
    var ramped :=
      if c.isLerping then
        var local := Lerp(c.lerpFrom, c.lerpTo, (c.unscaledTime - c.lerpStart) / (c.lerpEnd - c.lerpStart));
        c.(localTimeScale := local, isLerping := !(c.unscaledTime >= c.lerpEnd))
      else c;
    var scaled := ComputeTimeScale(ramped, parentTimeScale);
    var delta := unscaledDelta * scaled.timeScale;
    scaled.(deltaTime := delta,
            fixedDeltaTime := fixedStep * scaled.timeScale,
            time := c.time + delta,
            unscaledTime := c.unscaledTime + unscaledDelta)
  }

  /** Several frames in a row under a constant parent scale. */
  function Run(c: Clock, parentTimeScale: real, deltas: seq<real>, fixedStep: real): (r: Clock)
    requires Valid(c)
    ensures Valid(r)
    decreases |deltas|
  {
    if |deltas| == 0 then c
    else Run(Tick(c, parentTimeScale, deltas[0], fixedStep), parentTimeScale, deltas[1..], fixedStep)
  }

  /** Once a ramp is over, further frames leave the local scale alone. */
  lemma {:induction false} FinishedRampStays(c: Clock, parentTimeScale: real, deltas: seq<real>, fixedStep: real)
    requires Valid(c) && !c.isLerping
    ensures !Run(c, parentTimeScale, deltas, fixedStep).isLerping
    ensures Run(c, parentTimeScale, deltas, fixedStep).localTimeScale == c.localTimeScale
    decreases |deltas|
  {
    if |deltas| > 0 {
      FinishedRampStays(Tick(c, parentTimeScale, deltas[0], fixedStep), parentTimeScale, deltas[1..], fixedStep);
    }
  }

  /** A ramp lands exactly on its target: once some frame starts at or after lerpEnd in
      unscaled time, the local scale is lerpTo and the ramp is over, however the frame
      lengths were distributed. */
  lemma {:induction false} RampLandsOnTarget(c: Clock, parentTimeScale: real, deltas: seq<real>, fixedStep: real)
    requires Valid(c) && c.isLerping
    requires |deltas| > 0
    requires c.unscaledTime + Sum(deltas[..|deltas| - 1]) >= c.lerpEnd
    ensures !Run(c, parentTimeScale, deltas, fixedStep).isLerping
    ensures Run(c, parentTimeScale, deltas, fixedStep).localTimeScale == c.lerpTo
    decreases |deltas|
  {
    var next := Tick(c, parentTimeScale, deltas[0], fixedStep);
    var rest := deltas[1..];
    assert Run(c, parentTimeScale, deltas, fixedStep) == Run(next, parentTimeScale, rest, fixedStep);
    if c.unscaledTime >= c.lerpEnd {
      FinishedRampStays(next, parentTimeScale, rest, fixedStep);
    } else {
      assert |deltas| > 1;
      SumFront(deltas[..|deltas| - 1]);
      assert deltas[..|deltas| - 1][1..] == rest[..|rest| - 1];
      RampLandsOnTarget(next, parentTimeScale, rest, fixedStep);
    }
  }

  lemma {:induction false} SumFront(xs: seq<real>)
    requires |xs| > 0
    ensures Sum(xs) == xs[0] + Sum(xs[1..])
    decreases |xs|
  {
    if |xs| > 1 {
      var init := xs[..|xs| - 1];
      SumFront(init);
      assert init[1..] == xs[1..][..|xs[1..]| - 1];
    } else {
      assert xs[..0] == [] && xs[1..] == [];
    }
  }

  /** While a ramp toward a larger value runs, the local scale never decreases from one frame
      to a later one. */
  lemma RampIsMonotone(c: Clock, later: real, parentTimeScale: real, d1: real, d2: real, fixedStep: real)
    requires Valid(c) && c.isLerping && c.lerpFrom <= c.lerpTo
    requires c.unscaledTime <= later
    ensures Tick(c, parentTimeScale, d1, fixedStep).localTimeScale
            <= Tick(c.(unscaledTime := later), parentTimeScale, d2, fixedStep).localTimeScale
  {
    var w := c.lerpEnd - c.lerpStart;
    var s, t := (c.unscaledTime - c.lerpStart) / w, (later - c.lerpStart) / w;
    DivMonotone(c.unscaledTime - c.lerpStart, later - c.lerpStart, w);
    LerpMonotone(c.lerpFrom, c.lerpTo, s, t);
  }

  lemma DivMonotone(a: real, b: real, w: real)
    requires a <= b && w > 0.0
    ensures a / w <= b / w
  {
  }

  // ---------------------------------------------------------------------------------------
  // Re-parenting

  /** The registration invariant: the clock is a child of exactly its parent. */
  predicate RegisteredWithParent(self: ClockId, c: Clock, globals: map<ClockId, GlobalClock>) {
    forall g :: g in globals ==> (self in globals[g].clocks <==> c.parent == Some(g))
  }

  /** The `parent` setter. It first unregisters the clock from its current parent, then
      refuses the clock itself as parent (the earlier unregistration stays in effect), then
      records either no parent or the new parent's key and registers with it. The global
      clocks other than the old and new parent are untouched. */
  function SetParent(self: ClockId, c: Clock, value: Option<ClockId>, globals: map<ClockId, GlobalClock>)
    : (r: Completion<(Clock, map<ClockId, GlobalClock>)>)
    requires c.parent.Some? ==> c.parent.value in globals
    requires value.Some? ==> value.value in globals
    ensures r.state.1.Keys == globals.Keys
    ensures forall g :: g in globals && Some(g) != c.parent && Some(g) != value ==> r.state.1[g] == globals[g]
    ensures forall g :: g in globals ==> r.state.1[g].key == globals[g].key && r.state.1[g].timelines == globals[g].timelines
    ensures c.parent.Some? && value != c.parent ==> self !in r.state.1[c.parent.value].clocks
    ensures r.Threw? <==> value == Some(self)
    ensures r.Threw? ==> r.error == Chronos(SelfParent) && r.state.0 == c
    ensures value.None? ==> r.Returned? && r.state.0 == c.(parentKey := None, parent := None)
    ensures r.Returned? && value.Some? ==>
              && r.state.0 == c.(parentKey := globals[value.value].key, parent := value)
              && self in r.state.1[value.value].clocks
  {
    var unregistered :=
      if c.parent.Some? then
        var p := c.parent.value;
        globals[p := UnregisterClock(globals[p], Some(self)).value]
      else globals;
    if value.Some? then
      var v := value.value;
      if v == self then Threw(Chronos(SelfParent), (c, unregistered))
      else
        var registered := unregistered[v := RegisterClock(unregistered[v], Some(self)).value];
        Returned((c.(parentKey := globals[v].key, parent := value), registered))
    else Returned((c.(parentKey := None, parent := None), unregistered))
  }

  /** A successful re-parenting keeps the clock registered with exactly its parent. */
  lemma SetParentKeepsRegistration(self: ClockId, c: Clock, value: Option<ClockId>, globals: map<ClockId, GlobalClock>)
    requires c.parent.Some? ==> c.parent.value in globals
    requires value.Some? ==> value.value in globals
    requires RegisteredWithParent(self, c, globals)
    requires SetParent(self, c, value, globals).Returned?
    ensures var r := SetParent(self, c, value, globals).state; RegisteredWithParent(self, r.0, r.1)
  {
  }
}
