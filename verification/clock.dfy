/** The frame clock of src/clock.js (`makeClock`).

    The two injected collaborators are abstracted: every call of `now()` is
    given the reading it returns, and the scheduler `nextTick` is a count of
    callbacks it still holds.  Scheduled callbacks are all the same closure
    (`runningFunction`), so which one fires is immaterial.  The clock spreads
    an event bus into its interface; ticks are emitted on it. */
module Clock {
  import opened Results
  import Events

  /** An argument of `makeClock`: left out (the browser default, a function), a function, or another value. */
  datatype Arg = Default | Function | NotFunction(typeName: string)

  /** `running`, `time` (null until `start`), callbacks pending in the scheduler,
      the bus, and the `dt` of every tick emitted so far. */
  datatype Clock = Clock(running: bool, time: Option<real>, pending: nat, bus: Events.Bus, ticks: seq<real>)

  const TickEvent: string := "tick"

  function NextTickMessage(typeName: string): string {
    "\"nextTick\" must be a function, get \"" + typeName + "\"."
  }

  function NowMessage(typeName: string): string {
    "\"now\" must be a function, get \"" + typeName + "\"."
  }

  /** `makeClock(nextTick, now)`: `nextTick` is checked first, then `now`. */
  function MakeClock(nextTick: Arg, now: Arg): (r: Result<Clock>)
    ensures r.Ok? <==> !nextTick.NotFunction? && !now.NotFunction?
    ensures nextTick.NotFunction? ==> r == Err(NextTickMessage(nextTick.typeName))
    ensures !nextTick.NotFunction? && now.NotFunction? ==> r == Err(NowMessage(now.typeName))
    ensures r.Ok? ==> !r.value.running && r.value.time == None && r.value.pending == 0 && r.value.ticks == []
    ensures r.Ok? ==> r.value.bus == Events.Make()
  {
    if nextTick.NotFunction? then Err(NextTickMessage(nextTick.typeName))
    else if now.NotFunction? then Err(NowMessage(now.typeName))
    else Ok(Clock(false, None, 0, Events.Make(), []))
  }

  /** `time` as the subtraction `t - time` reads it: `null` converts to 0. */
  function TimeValue(time: Option<real>): real {
    match time
    case None => 0.0
    case Some(v) => v
  }

  /** `tick()` with `now()` returning `t`: emits `dt = t - time`, then stores `t`. */
  function Tick(c: Clock, t: real): (r: (Clock, seq<Events.Invocation>))
    ensures r.0.ticks == c.ticks + [t - TimeValue(c.time)]
    ensures r.0.time == Some(t)
    ensures r.0.running == c.running && r.0.pending == c.pending
    ensures r.1 == Events.Emit(c.bus, TickEvent, t - TimeValue(c.time)).1
    ensures r.0.bus == Events.Emit(c.bus, TickEvent, t - TimeValue(c.time)).0
  {
    var dt := t - TimeValue(c.time);
    var emitted := Events.Emit(c.bus, TickEvent, dt);
    (c.(time := Some(t), bus := emitted.0, ticks := c.ticks + [dt]), emitted.1)
  }

  /** `start()`: `running` is set, `time` sampled (`t0`), one tick emitted
      immediately (its `now()` reads `t1`) and one callback scheduled. */
  function Start(c: Clock, t0: real, t1: real): (r: (Clock, seq<Events.Invocation>))
    ensures r.0.running
    ensures r.0.pending == c.pending + 1
    ensures r.0.ticks == c.ticks + [t1 - t0]
    ensures r.0.time == Some(t1)
    ensures r.1 == Events.Emit(c.bus, TickEvent, t1 - t0).1
    ensures r.0.bus == Events.Emit(c.bus, TickEvent, t1 - t0).0
  {
    var ticked := Tick(c.(running := true, time := Some(t0)), t1);
    (ticked.0.(pending := ticked.0.pending + 1), ticked.1)
  }

  /** `stop()`: only clears the flag; callbacks already scheduled stay scheduled. */
  function Stop(c: Clock): (r: Clock)
    ensures !r.running && r.pending == c.pending && r.ticks == c.ticks && r.time == c.time && r.bus == c.bus
  {
    c.(running := false)
  }

  /** The scheduler runs one pending callback, with `now()` reading `t`:
      it ticks once, and reschedules itself only while `running`. */
  function Fire(c: Clock, t: real): (r: (Clock, seq<Events.Invocation>))
    requires c.pending > 0
    ensures |r.0.ticks| == |c.ticks| + 1 && r.0.ticks[..|c.ticks|] == c.ticks
    ensures r.0.ticks[|c.ticks|] == t - TimeValue(c.time)
    ensures r.0.running == c.running
    ensures r.0.pending == if c.running then c.pending else c.pending - 1
    ensures r.0.time == Some(t)
    ensures r.1 == Events.Emit(c.bus, TickEvent, t - TimeValue(c.time)).1
    ensures r.0.bus == Events.Emit(c.bus, TickEvent, t - TimeValue(c.time)).0
  {
    var ticked := Tick(c.(pending := c.pending - 1), t);
    (if ticked.0.running then ticked.0.(pending := ticked.0.pending + 1) else ticked.0, ticked.1)
  }

  /** The scheduler running one pending callback per reading in `ts`. */
  function FireAll(c: Clock, ts: seq<real>): (r: Clock)
    requires !c.running && |ts| <= c.pending
    decreases |ts|
  {
    if ts == [] then c else FireAll(Fire(c, ts[0]).0, ts[1..])
  }

  /** After `stop`, each callback still pending ticks once and none is
      rescheduled: a stopped clock ticks exactly once per pending callback
      and then never again.  In particular a clock started once ticks at
      most once more after `stop`. */
  lemma {:induction false} StoppedClockDrains(c: Clock, ts: seq<real>)
    requires !c.running && |ts| <= c.pending
    ensures FireAll(c, ts).pending == c.pending - |ts|
    ensures |FireAll(c, ts).ticks| == |c.ticks| + |ts|
    ensures !FireAll(c, ts).running
    decreases |ts|
  {
    if ts != [] {
      StoppedClockDrains(Fire(c, ts[0]).0, ts[1..]);
    }
  }

  /** Starting a fresh clock and stopping it leaves exactly one pending
      callback, so one further tick at most; `dt` of each tick is the time
      elapsed since the previous reading. */
  lemma StartStopSchedule(nextTick: Arg, now: Arg, t0: real, t1: real, t2: real)
    requires !nextTick.NotFunction? && !now.NotFunction?
    ensures
      var c0 := MakeClock(nextTick, now).value;
      var c1 := Stop(Start(c0, t0, t1).0);
      var c2 := Fire(c1, t2).0;
      && c1.pending == 1
      && c2.ticks == [t1 - t0, t2 - t1]
      && c2.pending == 0
  {
  }

  /** While running, firing a callback keeps exactly as many callbacks pending. */
  lemma RunningKeepsOneChain(c: Clock)
    requires c.running && c.pending > 0
    ensures forall t :: Fire(c, t).0.pending == c.pending && Fire(c, t).0.running
  {
  }
}
