/** What holds over whole runs of the tuning engine (crates/libfw-client/src/tune.rs). */
module TuneRuns {
  import opened Wrappers
  import opened Tune

  datatype Event =
    | Direct(kind: TransferKind)
    | Begin(caps: Capabilities, now: real, fixed: TuneParams, cached: Option<TuneParams>)
    | Tick(now: real, done: nat, rtt: Option<real>, error: bool)
    | End(ok: bool)

  function Next(e: Engine, ev: Event): Engine
    requires InCeilings(e.params)
  {
    match ev
    case Direct(kind) => e.(direction := kind)
    case Begin(caps, now, fixed, cached) => Begun(e, caps, now, fixed, cached)
    case Tick(now, done, rtt, error) => Ticked(e, now, done, rtt, error)
    case End(ok) => Ended(e, ok)
  }

  function Run(e: Engine, events: seq<Event>): (r: Engine)
    requires InBudget(e.params)
    ensures InBudget(r.params)
    decreases |events|
  {
    if events == [] then e
    else
      NextInBudget(e, events[0]);
      Run(Next(e, events[0]), events[1..])
  }

  // ---------------------------------------------------------------------------
  // The memory budget
  // ---------------------------------------------------------------------------

  lemma TickedInBudget(e: Engine, now: real, done: nat, rtt: Option<real>, error: bool)
    requires InBudget(e.params)
    ensures InBudget(Ticked(e, now, done, rtt, error).params)
  {
    var s := e.(meter := Sampled(e.meter, e.enabled, rtt, error));
    if Closes(s, now) {
      var mbps := Mbps(s.meter, now, done);
      RetunedInCeilings(s.params, mbps, s.caps.value);
      var sized := Sized(s, mbps);
      var d := DecideRamp(Measured(sized, mbps));
      AppliedInBudget(sized.(meter := sized.meter.(lowGainWindows := d.low, prevMbps := mbps)), d.action);
    }
  }

  lemma NextInBudget(e: Engine, ev: Event)
    requires InBudget(e.params)
    ensures InBudget(Next(e, ev).params)
  {
    match ev
    case Direct(_) =>
    case Begin(caps, _, fixed, cached) =>
      var reusable := if InMemory(e, caps).Some? then InMemory(e, caps) else cached;
      EnforcedInBudget(
        if !e.enabled then ClampedInto(fixed, caps)
        else if reusable.Some? then ClampedInto(reusable.value, caps) else FromCapsMins(caps));
    case Tick(now, done, rtt, error) => TickedInBudget(e, now, done, rtt, error);
    case End(_) =>
  }

  /**
   * Whatever is advertised, cached or configured, and whatever happens in between: every dimension
   * stays in its ceiling, and neither direction ever has more than 256 MiB in flight.
   */
  lemma MemoryBudget(enabled: bool, events: seq<Event>, kind: TransferKind)
    ensures InBudget(NewEngine(enabled).params)
    ensures var p := Run(NewEngine(enabled), events).params;
            && 1 <= p.concurrency <= 64 && 1 <= p.uploadWindow <= 64 && 1 <= p.downloadWindow <= 64
            && 1 <= p.chunkSize <= 16 * 1024 * 1024
            && InFlight(p, kind) <= 256 * 1024 * 1024
  {
    var p := Run(NewEngine(enabled), events).params;
    ProductShrinks(p.concurrency, DimValue(p, Window, kind), p.concurrency, Widest(p), p.chunkSize);
  }

  // ---------------------------------------------------------------------------
  // One closed window
  // ---------------------------------------------------------------------------

  predicate NoLarger(p: TuneParams, q: TuneParams) {
    p.concurrency <= q.concurrency && p.uploadWindow <= q.uploadWindow && p.downloadWindow <= q.downloadWindow
  }

  predicate SameRamp(p: TuneParams, q: TuneParams) {
    p.concurrency == q.concurrency && p.uploadWindow == q.uploadWindow && p.downloadWindow == q.downloadWindow
  }

  function Cap(e: Engine, dim: RampDim): nat
    requires e.caps.Some?
  {
    DimMax(e.caps.value, dim, e.direction)
  }

  function Value(e: Engine, dim: RampDim): nat { DimValue(e.params, dim, e.direction) }

  /**
   * The decision the window came to, and what it did to the ramped dimensions: only a raise, and
   * only below the cap, makes one larger; only an error makes one smaller.
   */
  lemma WindowOutcome(e: Engine, now: real, done: nat) returns (d: Decision)
    requires InCeilings(e.params) && Closes(e, now)
    ensures d == DecideRamp(Measured(Sized(e, Mbps(e.meter, now, done)), Mbps(e.meter, now, done)))
    ensures var f := Evaluated(e, now, done);
            && f.enabled == e.enabled && f.caps == e.caps && f.direction == e.direction && f.meter.windowErrors == 0
            && (f.phase, f.dim, f.meter.lowGainWindows, f.meter.degradedWindows, f.postDegradeSettle) == (
              match d.action
              case Raise => (if e.phase == Degraded then Ramping else e.phase, e.dim, d.low, e.meter.degradedWindows, e.postDegradeSettle)
              case AdvanceDim => (e.phase, Concurrency, d.low, e.meter.degradedWindows, e.postDegradeSettle)
              case Settle => (Settled, e.dim, 0, e.meter.degradedWindows, e.postDegradeSettle)
              case Degrade => (Degraded, e.dim, 0, 0, e.postDegradeSettle)
              case Hold =>
                if e.phase != Degraded then (e.phase, e.dim, d.low, e.meter.degradedWindows, e.postDegradeSettle)
                else if e.meter.degradedWindows >= 1 then (Settled, e.dim, d.low, e.meter.degradedWindows + 1, true)
                else (Degraded, e.dim, d.low, e.meter.degradedWindows + 1, e.postDegradeSettle))
    ensures var f := Evaluated(e, now, done);
            match d.action
            case Raise =>
              && e.phase == Ramping && Value(e, e.dim) < Value(f, e.dim) <= Cap(e, e.dim)
              && SameRamp(f.params, WithDim(e.params, e.dim, e.direction, Value(f, e.dim)))
            case Degrade =>
              && e.meter.windowErrors > 0
              && SameRamp(f.params, WithDim(e.params, e.dim, e.direction, MaxInt(Value(e, e.dim) / 2, 1)))
            case _ => SameRamp(f.params, e.params)
    ensures e.meter.windowErrors > 0 <==> d.action == Degrade
  {
    var mbps := Mbps(e.meter, now, done);
    RetunedInCeilings(e.params, mbps, e.caps.value);
    d := DecideRamp(Measured(Sized(e, mbps), mbps));
    if d.action == Raise {
      assert !AtCap(Sized(e, mbps));
    }
  }

  // ---------------------------------------------------------------------------
  // No growth after the ramp
  // ---------------------------------------------------------------------------

  lemma TickNoGrowth(e: Engine, now: real, done: nat, rtt: Option<real>, error: bool)
    requires InCeilings(e.params) && e.phase != Ramping
    ensures Ticked(e, now, done, rtt, error).phase != Ramping
    ensures NoLarger(Ticked(e, now, done, rtt, error).params, e.params)
  {
    var s := e.(meter := Sampled(e.meter, e.enabled, rtt, error));
    if Closes(s, now) { var d := WindowOutcome(s, now, done); }
  }

  /** Everything but a new transfer and a failed one. */
  predicate Quiet(ev: Event) { !ev.Begin? && ev != End(false) }

  /** Once the phase has left Ramping, nothing but a new or failed transfer raises a dimension again. */
  lemma {:induction false} NoGrowthAfterRamp(e: Engine, events: seq<Event>)
    requires InBudget(e.params) && e.phase != Ramping
    requires forall i :: 0 <= i < |events| ==> Quiet(events[i])
    ensures Run(e, events).phase != Ramping && NoLarger(Run(e, events).params, e.params)
    decreases |events|
  {
    if events != [] {
      var ev := events[0];
      NextInBudget(e, ev);
      assert Quiet(ev);
      if ev.Tick? { TickNoGrowth(e, ev.now, ev.done, ev.rtt, ev.error); }
      NoGrowthAfterRamp(Next(e, ev), events[1..]);
    }
  }

  // ---------------------------------------------------------------------------
  // The ramp terminates
  // ---------------------------------------------------------------------------

  /** Windows a dimension can still take: two for each step up to its cap, and two to give up. */
  function WindowsFor(e: Engine, dim: RampDim): nat
    requires e.caps.Some?
  {
    2 * MaxInt(Cap(e, dim) - Value(e, dim), 0) + 2
  }

  function RampBound(e: Engine): nat
    requires e.caps.Some?
  {
    (if e.dim == Window then WindowsFor(e, Window) else 0) + WindowsFor(e, Concurrency)
  }

  /** The measure: the dimensions left, the distance to each cap, and the low-gain windows left. */
  function WindowsLeft(e: Engine): int
    requires e.caps.Some?
  {
    if e.phase == Settled then 0 else RampBound(e) - e.meter.lowGainWindows
  }

  /** At most one low-gain window is ever outstanding. */
  predicate LowGainBounded(e: Engine) { e.meter.lowGainWindows <= 1 }

  predicate Exploring(e: Engine) { e.enabled && e.caps.Some? && e.phase in {Ramping, Degraded, Settled} }

  lemma WindowProgress(e: Engine, now: real, done: nat)
    requires InCeilings(e.params) && Closes(e, now) && e.meter.windowErrors == 0
    requires LowGainBounded(e) && Exploring(e)
    ensures var f := Evaluated(e, now, done);
            && Exploring(f) && LowGainBounded(f) && f.meter.windowErrors == 0
            && 0 <= WindowsLeft(f) && (f.phase == Settled || WindowsLeft(f) < WindowsLeft(e))
            && (e.phase == Settled ==> f.phase == Settled)
  {
    var d := WindowOutcome(e, now, done);
    RetunedInCeilings(e.params, Mbps(e.meter, now, done), e.caps.value);
  }

  lemma LowGainKept(e: Engine, ev: Event)
    requires InBudget(e.params) && LowGainBounded(e)
    ensures LowGainBounded(Next(e, ev))
  {
    if ev.Tick? {
      var s := e.(meter := Sampled(e.meter, e.enabled, ev.rtt, ev.error));
      if Closes(s, ev.now) { var d := WindowOutcome(s, ev.now, ev.done); }
    }
  }

  /** `LowGainBounded` holds in every state an engine reaches. */
  lemma {:induction false} LowGainAlways(e: Engine, events: seq<Event>)
    requires InBudget(e.params) && LowGainBounded(e)
    ensures LowGainBounded(Run(e, events))
    decreases |events|
  {
    if events != [] {
      LowGainKept(e, events[0]);
      NextInBudget(e, events[0]);
      LowGainAlways(Next(e, events[0]), events[1..]);
    }
  }

  predicate ErrorFree(ticks: seq<Event>) {
    forall i :: 0 <= i < |ticks| ==> ticks[i].Tick? && !ticks[i].error
  }

  /** How many of these ticks close a measurement window. */
  function WindowsClosed(e: Engine, ticks: seq<Event>): nat
    requires InBudget(e.params)
    decreases |ticks|
  {
    if ticks == [] then 0
    else
      NextInBudget(e, ticks[0]);
      (if ticks[0].Tick? && Closes(e, ticks[0].now) then 1 else 0) + WindowsClosed(Next(e, ticks[0]), ticks[1..])
  }

  lemma {:induction false} RampProgress(e: Engine, ticks: seq<Event>)
    requires InBudget(e.params) && ErrorFree(ticks) && e.meter.windowErrors == 0
    requires LowGainBounded(e) && Exploring(e)
    ensures Exploring(Run(e, ticks)) && LowGainBounded(Run(e, ticks))
    ensures e.phase == Settled ==> Run(e, ticks).phase == Settled
    ensures Run(e, ticks).phase == Settled || 1 <= WindowsLeft(Run(e, ticks)) <= WindowsLeft(e) - WindowsClosed(e, ticks)
    decreases |ticks|
  {
    if ticks != [] {
      var t := ticks[0];
      NextInBudget(e, t);
      var s := e.(meter := Sampled(e.meter, e.enabled, t.rtt, t.error));
      assert WindowsLeft(s) == WindowsLeft(e);
      if Closes(s, t.now) { WindowProgress(s, t.now, t.done); }
      RampProgress(Next(e, t), ticks[1..]);
    }
  }

  /**
   * The ramp terminates: from any state reached by a run, ramping or degraded, error-free windows
   * settle it, at most 2 * (cap - value) + 2 of them for each dimension still to ramp.
   */
  lemma RampTerminates(enabled: bool, history: seq<Event>, ticks: seq<Event>)
    ensures InBudget(NewEngine(enabled).params)
    ensures var e := Run(NewEngine(enabled), history);
            (e.caps.Some? && enabled && e.phase in {Ramping, Degraded} && e.meter.windowErrors == 0 && ErrorFree(ticks)
             && WindowsClosed(e, ticks) >= RampBound(e)) ==> Run(e, ticks).phase == Settled
  {
    LowGainAlways(NewEngine(enabled), history);
    EnabledKept(NewEngine(enabled), history);
    var e := Run(NewEngine(enabled), history);
    if e.caps.Some? && enabled && e.phase in {Ramping, Degraded} && e.meter.windowErrors == 0 && ErrorFree(ticks) {
      RampProgress(e, ticks);
    }
  }

  lemma {:induction false} EnabledKept(e: Engine, events: seq<Event>)
    requires InBudget(e.params)
    ensures Run(e, events).enabled == e.enabled
    decreases |events|
  {
    if events != [] {
      NextInBudget(e, events[0]);
      EnabledKept(Next(e, events[0]), events[1..]);
    }
  }

  // ---------------------------------------------------------------------------
  // Settling after an error
  // ---------------------------------------------------------------------------

  /**
   * While degraded, the low-gain counter is never behind the stability counter, and a capped
   * dimension has held no window yet.
   */
  predicate CounterLeads(e: Engine) {
    && !e.postDegradeSettle
    && (e.phase == Degraded ==>
          && e.meter.degradedWindows <= e.meter.lowGainWindows <= 1
          && (e.meter.degradedWindows > 0 ==> e.caps.Some? && !AtCap(e)))
    && LowGainBounded(e)
  }

  lemma CounterLeadsKept(e: Engine, ev: Event)
    requires InBudget(e.params) && LowGainBounded(e) && (CounterLeads(e) || ev.Begin?)
    requires ev.Direct? ==> e.phase != Degraded
    ensures CounterLeads(Next(e, ev))
  {
    if ev.Tick? {
      var s := e.(meter := Sampled(e.meter, e.enabled, ev.rtt, ev.error));
      if Closes(s, ev.now) {
        var d := WindowOutcome(s, ev.now, ev.done);
        RetunedInCeilings(s.params, Mbps(s.meter, ev.now, ev.done), s.caps.value);
      }
    }
  }

  /** Callers set the direction only to begin a transfer at once. */
  predicate DirectsBegin(events: seq<Event>) {
    forall i :: 0 <= i < |events| - 1 && events[i].Direct? ==> events[i + 1].Begin?
  }

  lemma {:induction false} CounterLeadsRun(e: Engine, events: seq<Event>)
    requires InBudget(e.params) && LowGainBounded(e) && DirectsBegin(events) && !e.postDegradeSettle
    requires CounterLeads(e) || (events != [] && events[0].Begin?)
    ensures !Run(e, events).postDegradeSettle
    ensures events == [] || !events[|events| - 1].Direct? ==> CounterLeads(Run(e, events))
    decreases |events|
  {
    if events != [] {
      var ev, rest := events[0], events[1..];
      NextInBudget(e, ev);
      LowGainKept(e, ev);
      if !ev.Direct? { CounterLeadsKept(e, ev); }
      assert rest != [] && ev.Direct? ==> events[0 + 1].Begin?;
      if rest != [] || !ev.Direct? { CounterLeadsRun(Next(e, ev), rest); }
    }
  }

  /**
   * The two-stable-windows rule that would mark a post-degrade settle never fires, in any run of the
   * engine: the low-gain counter settles first.
   */
  lemma PostDegradeSettleNeverMarked(enabled: bool, events: seq<Event>)
    requires DirectsBegin(events)
    ensures !Run(NewEngine(enabled), events).postDegradeSettle
  {
    CounterLeadsRun(NewEngine(enabled), events);
  }

  lemma {:induction false} RunSplit(e: Engine, a: seq<Event>, b: seq<Event>)
    requires InBudget(e.params)
    ensures Run(e, a + b) == Run(Run(e, a), b)
    decreases |a|
  {
    if a == [] {
      assert a + b == b;
    } else {
      assert (a + b)[1..] == a[1..] + b;
      NextInBudget(e, a[0]);
      RunSplit(Next(e, a[0]), a[1..], b);
    }
  }

  lemma RunOne(e: Engine, ev: Event)
    requires InBudget(e.params)
    ensures Run(e, [ev]) == Next(e, ev)
  {
    NextInBudget(e, ev);
    assert [ev][1..] == [];
  }

  lemma DegradedSettleStored(e: Engine, now: real, done: nat)
    requires InCeilings(e.params) && Closes(e, now) && CounterLeads(e) && e.phase == Degraded
    requires Evaluated(e, now, done).phase == Settled
    ensures var f := Evaluated(e, now, done);
            f.settled == Some((f.params, e.caps.value.hash, e.direction)) && SameRamp(f.params, e.params)
  {
    var d := WindowOutcome(e, now, done);
    RetunedInCeilings(e.params, Mbps(e.meter, now, done), e.caps.value);
  }

  /**
   * In any run, a tick that takes the engine from Degraded to Settled stores the parameters it
   * settles on, halved ones included, for the next transfer with these capabilities and direction.
   */
  lemma DegradedSettleIsRemembered(enabled: bool, events: seq<Event>, tick: Event)
    requires tick.Tick? && DirectsBegin(events + [tick])
    requires Run(NewEngine(enabled), events).phase == Degraded && Run(NewEngine(enabled), events + [tick]).phase == Settled
    ensures var e, f := Run(NewEngine(enabled), events), Run(NewEngine(enabled), events + [tick]);
            && e.caps.Some? && SameRamp(f.params, e.params)
            && f.settled == Some((f.params, e.caps.value.hash, e.direction))
  {
    var e, all := Run(NewEngine(enabled), events), events + [tick];
    RunMore(NewEngine(enabled), events, tick);
    forall i | 0 <= i < |events|
      ensures events[i].Direct? ==> i + 1 < |events| && events[i + 1].Begin?
    {
      assert all[i] == events[i] && all[i + 1] == if i + 1 < |events| then events[i + 1] else tick;
    }
    CounterLeadsRun(NewEngine(enabled), events);
    var s := e.(meter := Sampled(e.meter, e.enabled, tick.rtt, tick.error));
    if Closes(s, tick.now) { DegradedSettleStored(s, tick.now, tick.done); }
  }

  /** The next transfer then starts from the stored parameters, clamped, and does not ramp. */
  lemma NextTransferReuses(e: Engine, p: TuneParams, caps: Capabilities, now: real, fixed: TuneParams, cached: Option<TuneParams>)
    requires InBudget(e.params) && e.enabled && e.settled == Some((p, caps.hash, e.direction))
    ensures var f := Run(e, [End(true), Direct(e.direction), Begin(caps, now, fixed, cached)]);
            f.phase == Settled && f.params == Enforced(ClampedInto(p, caps))
  {
    var end, direct, begin := End(true), Direct(e.direction), Begin(caps, now, fixed, cached);
    assert [end, direct, begin][1..] == [direct, begin] && [direct, begin][1..] == [begin];
    assert Next(Next(e, end), direct) == e;
    RunOne(e, begin);
  }

  // A run in which this happens: windows of at least four, one error, two quiet windows.

  const FOUR_TO_EIGHT: IntRange := IntRange(4, 8)
  const CHUNK: u64 := 0x4_0000
  const EXAMPLE_CAPS: Capabilities :=
    Capabilities(FOUR_TO_EIGHT, FOUR_TO_EIGHT, FOUR_TO_EIGHT, IntRange(CHUNK, 0x80_0000), "caps")

  function QuietTick(now: real, error: bool): Event { Tick(now, 0, None, error) }

  function ExampleState(phase: TunePhase, downloadWindow: u64, meter: Meter): Engine {
    Engine(true, phase, Some(EXAMPLE_CAPS), TuneParams(4, 4, downloadWindow, CHUNK), meter, 0.0, Window, None, false, Download)
  }

  lemma ExampleBegins(fixed: TuneParams)
    ensures Next(NewEngine(true), Begin(EXAMPLE_CAPS, 0.0, fixed, None)) == ExampleState(Ramping, 4, NewMeter(0.0))
  {
    var p := TuneParams(4, 4, 4, CHUNK);
    assert FromCapsMins(EXAMPLE_CAPS) == p;
    assert MaxChunkForBudget(p) == 0x100_0000;
    assert Enforced(p) == p;
  }

  /** A window without traffic leaves the chunk at the advertised minimum. */
  lemma NoTraffic(e: Engine, now: real)
    requires e.caps == Some(EXAMPLE_CAPS) && e.meter.rttEwma == None && e.meter.doneBase == 0 && e.statsRtt == 0.0
    requires e.params.concurrency == 4 && e.params.uploadWindow == 4 && e.params.downloadWindow in {2, 4} && e.params.chunkSize == CHUNK
    ensures Mbps(e.meter, now, 0) == 0.0 && Sized(e, 0.0) == e
  {
    assert MaxChunkForBudget(e.params) == 0x100_0000;
    assert ChunkForLink(0.0, EXAMPLE_CAPS.chunkSize, 0x100_0000) == CHUNK;
  }

  /** The error halves the window being ramped. */
  lemma ExampleDegrades()
    ensures Next(ExampleState(Ramping, 4, NewMeter(0.0)), QuietTick(1000.0, true)) == ExampleState(Degraded, 2, NewMeter(1000.0))
  {
    var e := ExampleState(Ramping, 4, NewMeter(0.0).(windowErrors := 1));
    NoTraffic(e, 1000.0);
    assert DecideRamp(Measured(e, 0.0)) == Decision(Degrade, 0);
    assert Evaluated(e, 1000.0, 0) == ExampleState(Degraded, 2, NewMeter(1000.0));
  }

  /** The first quiet window holds. */
  lemma ExampleHolds()
    ensures Next(ExampleState(Degraded, 2, NewMeter(1000.0)), QuietTick(2000.0, false)) ==
              ExampleState(Degraded, 2, NewMeter(2000.0).(lowGainWindows := 1, degradedWindows := 1))
  {
    var e := ExampleState(Degraded, 2, NewMeter(1000.0));
    NoTraffic(e, 2000.0);
    assert DecideRamp(Measured(e, 0.0)) == Decision(Hold, 1);
  }

  /** The second one settles, and stores the halved window. */
  lemma ExampleSettles()
    ensures var f := Next(ExampleState(Degraded, 2, NewMeter(2000.0).(lowGainWindows := 1, degradedWindows := 1)), QuietTick(3000.0, false));
            f.phase == Settled && f.settled == Some((TuneParams(4, 4, 2, CHUNK), "caps", Download))
  {
    var e := ExampleState(Degraded, 2, NewMeter(2000.0).(lowGainWindows := 1, degradedWindows := 1));
    NoTraffic(e, 3000.0);
    assert DecideRamp(Measured(e, 0.0)) == Decision(Settle, 2);
  }

  /** So a reachable degraded engine settles on halved parameters and stores them. */
  lemma HalvedSettleReached(fixed: TuneParams)
    ensures var events := [Begin(EXAMPLE_CAPS, 0.0, fixed, None), QuietTick(1000.0, true), QuietTick(2000.0, false)];
            var last := QuietTick(3000.0, false);
            && DirectsBegin(events + [last])
            && Run(NewEngine(true), events).phase == Degraded
            && Run(NewEngine(true), events + [last]).phase == Settled
            && Run(NewEngine(true), events + [last]).settled == Some((TuneParams(4, 4, 2, CHUNK), "caps", Download))
  {
    var begin, bad, quiet, last := Begin(EXAMPLE_CAPS, 0.0, fixed, None), QuietTick(1000.0, true), QuietTick(2000.0, false), QuietTick(3000.0, false);
    var e0 := NewEngine(true);
    RunOne(e0, begin);
    ExampleBegins(fixed);
    RunMore(e0, [begin], bad);
    ExampleDegrades();
    RunMore(e0, [begin, bad], quiet);
    ExampleHolds();
    RunMore(e0, [begin, bad, quiet], last);
    ExampleSettles();
    assert [begin] + [bad] == [begin, bad] && [begin, bad] + [quiet] == [begin, bad, quiet];
  }

  lemma RunMore(e: Engine, events: seq<Event>, ev: Event)
    requires InBudget(e.params)
    ensures Run(e, events + [ev]) == Next(Run(e, events), ev)
  {
    RunSplit(e, events, [ev]);
    RunOne(Run(e, events), ev);
  }
}
