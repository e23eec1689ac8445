/**
 * What the tuning engine decides, in terms of the traffic it saw: the rules of
 * crates/libfw-client/src/tune.rs:500-530, on what a closed window did to the engine.
 */
module TuneDecisions {
  import opened Wrappers
  import opened Tune
  import opened TuneRuns

  // ---------------------------------------------------------------------------
  // The traffic
  // ---------------------------------------------------------------------------

  /** Megabits a second since the window opened: bytes over milliseconds. */
  function Rate(e: Engine, now: real, done: nat): real
    requires Closes(e, now)
  {
    var bytes := if done >= e.meter.doneBase then done - e.meter.doneBase else 0;
    bytes as real / (now - e.meter.windowStart) * 0.008
  }

  /** One sample: an error is counted; a positive latency is smoothed, one quarter new, three quarters old. */
  lemma SampleMeans(m: Meter, enabled: bool, rtt: Option<real>, error: bool)
    ensures var s := Sampled(m, enabled, rtt, error);
            && s.windowErrors == m.windowErrors + (if error then 1 else 0)
            && s.windowStart == m.windowStart && s.doneBase == m.doneBase && s.prevMbps == m.prevMbps
            && s.lowGainWindows == m.lowGainWindows && s.degradedWindows == m.degradedWindows
            && (if rtt.Some? && rtt.value > 0.0 then
                  && s.rttEwma == Some(if m.rttEwma.None? then rtt.value else 0.25 * rtt.value + 0.75 * m.rttEwma.value)
                  && s.rttBaseline == (if enabled && m.rttBaseline.None? then s.rttEwma else m.rttBaseline)
                else s.rttEwma == m.rttEwma && s.rttBaseline == m.rttBaseline)
  {
  }

  /** A tick takes its sample, and closes the window when a second has passed. */
  lemma TickMeans(e: Engine, now: real, done: nat, rtt: Option<real>, error: bool)
    requires InCeilings(e.params)
    ensures var s := e.(meter := Sampled(e.meter, e.enabled, rtt, error));
            && (Closes(s, now) <==> e.enabled && e.caps.Some? && now - e.meter.windowStart >= 1000.0)
            && Ticked(e, now, done, rtt, error) == if Closes(s, now) then Evaluated(s, now, done) else s
  {
  }

  /** The cap of a dimension: the advertised maximum, between 1 and 64. */
  lemma CapMeans(e: Engine)
    requires e.caps.Some?
    ensures var limit := if e.direction == Upload then e.caps.value.uploadWindow.max else e.caps.value.downloadWindow.max;
            && Cap(e, Window) == (if limit < 1 then 1 else if limit > 64 then 64 else limit)
            && Value(e, Window) == (if e.direction == Upload then e.params.uploadWindow else e.params.downloadWindow)
    ensures var limit := e.caps.value.concurrency.max;
            && Cap(e, Concurrency) == (if limit < 1 then 1 else if limit > 64 then 64 else limit)
            && Value(e, Concurrency) == e.params.concurrency
  {
  }

  // ---------------------------------------------------------------------------
  // What a window shows
  // ---------------------------------------------------------------------------

  predicate Capped(e: Engine)
    requires e.caps.Some?
  {
    Value(e, e.dim) >= Cap(e, e.dim)
  }

  /** Latency has risen more than 30% over the baseline of the ramp. */
  predicate Inflated(e: Engine) {
    && e.phase == Ramping && e.meter.rttEwma.Some? && e.meter.rttBaseline.Some?
    && e.meter.rttBaseline.value > 0.0 && e.meter.rttEwma.value > 1.3 * e.meter.rttBaseline.value
  }

  /** Files in parallel already keep a round trip's worth of bytes in flight. */
  predicate PipeFull(e: Engine, now: real, done: nat)
    requires Closes(e, now) && InCeilings(e.params)
  {
    Fills(e, Rate(e, now, done))
  }

  predicate Fills(e: Engine, rate: real)
    requires e.caps.Some? && InCeilings(e.params)
  {
    && e.phase == Ramping && e.dim == Concurrency
    && Holds(e, rate, Retuned(e.params, rate, e.caps.value).chunkSize)
  }

  /** Bytes are megabits a second times milliseconds, over eight thousandths. */
  predicate Holds(e: Engine, rate: real, chunk: nat) {
    var rtt := if e.meter.rttEwma.Some? then e.meter.rttEwma.value else e.statsRtt;
    Covered(rate * 125.0 * rtt, e.params.concurrency * Value(e, Window) * chunk)
  }

  /** At least that many bytes, and at least one. */
  predicate Covered(product: real, held: nat) { product >= 1.0 && held >= product.Floor }

  /** While ramping: at least 5% more than the window before, or no window before. */
  predicate Grew(e: Engine, now: real, done: nat)
    requires Closes(e, now)
  {
    e.phase == Ramping && (e.meter.prevMbps > 0.0 ==> Rate(e, now, done) >= 1.05 * e.meter.prevMbps)
  }

  /** Nothing stops the dimension from growing. */
  predicate Room(e: Engine, now: real, done: nat)
    requires Closes(e, now) && InCeilings(e.params)
  {
    e.meter.windowErrors == 0 && !Capped(e) && !PipeFull(e, now, done) && !Inflated(e)
  }

  // ---------------------------------------------------------------------------
  // Arithmetic
  // ---------------------------------------------------------------------------

  lemma RateIsMbps(e: Engine, now: real, done: nat)
    requires Closes(e, now)
    ensures Mbps(e.meter, now, done) == Rate(e, now, done)
  {
  }

  lemma Quotient(a: real, b: real)
    requires b > 0.0
    ensures a / b * b == a
  {
  }

  lemma RatioAtLeast(a: real, b: real, k: real)
    requires b > 0.0
    ensures a / b >= k <==> a >= k * b
    ensures a / b > k <==> a > k * b
  {
    var q := a / b;
    Quotient(a, b);
    if q >= k { assert (q - k) * b >= 0.0; assert (q - k) * b == a - k * b; }
    if q < k { assert (k - q) * b > 0.0; assert (k - q) * b == k * b - a; }
    if q > k { assert (q - k) * b > 0.0; assert (q - k) * b == a - k * b; }
  }

  lemma SmallProduct(a: nat, b: nat, c: nat)
    requires a <= 64 && b <= 64 && c <= HARD_MAX_CHUNK_SIZE
    ensures a * b * c <= 64 * 64 * HARD_MAX_CHUNK_SIZE
  {
    assert a * b <= 64 * b;
    var n := a * b;
    assert n * c <= 64 * 64 * c;
  }

  /** What the decision is shown, in these terms. */
  lemma Shown(e: Engine, now: real, done: nat)
    requires InCeilings(e.params) && Closes(e, now)
    ensures var mbps := Mbps(e.meter, now, done);
            var i := Measured(Sized(e, mbps), mbps);
            && i.errors == e.meter.windowErrors && i.lowGainWindows == e.meter.lowGainWindows
            && i.degraded == (e.phase == Degraded) && i.lastDim == (e.dim == Concurrency)
            && i.atCap == Capped(e)
            && (i.bdp > 0 && i.inFlight >= i.bdp <==> PipeFull(e, now, done))
            && (i.rttInflation > RTT_INFLATE_THRESHOLD <==> Inflated(e))
            && (i.ramping && Gain(i) >= GAIN_THRESHOLD <==> Grew(e, now, done))
  {
    var mbps := Mbps(e.meter, now, done);
    RateIsMbps(e, now, done);
    RetunedInCeilings(e.params, mbps, e.caps.value);
    ShownGain(e, now, done);
    ShownPipe(e, mbps);
    ShownLatency(e, mbps);
  }

  lemma ShownGain(e: Engine, now: real, done: nat)
    requires InCeilings(e.params) && Closes(e, now)
    ensures var mbps := Mbps(e.meter, now, done);
            var i := Measured(Sized(e, mbps), mbps);
            i.ramping && Gain(i) >= GAIN_THRESHOLD <==> Grew(e, now, done)
  {
    RateIsMbps(e, now, done);
    if e.meter.prevMbps > 0.0 { RatioAtLeast(Rate(e, now, done), e.meter.prevMbps, 1.05); }
  }

  lemma ShownLatency(e: Engine, mbps: real)
    requires InCeilings(e.params) && e.caps.Some?
    ensures Measured(Sized(e, mbps), mbps).rttInflation > RTT_INFLATE_THRESHOLD <==> Inflated(e)
  {
    if e.meter.rttEwma.Some? && e.meter.rttBaseline.Some? && e.meter.rttBaseline.value > 0.0 {
      RatioAtLeast(e.meter.rttEwma.value, e.meter.rttBaseline.value, 1.3);
    }
  }

  lemma ShownPipe(e: Engine, mbps: real)
    requires InCeilings(e.params) && e.caps.Some?
    ensures var i := Measured(Sized(e, mbps), mbps);
            i.bdp > 0 && i.inFlight >= i.bdp <==> Fills(e, mbps)
  {
    RetunedInCeilings(e.params, mbps, e.caps.value);
    PipeShown(e, Sized(e, mbps), mbps, Retuned(e.params, mbps, e.caps.value).chunkSize);
  }

  lemma PipeShown(e: Engine, s: Engine, mbps: real, chunk: u64)
    requires e.caps.Some? && InCeilings(e.params) && s.caps.Some? && InCeilings(s.params)
    requires s.phase == e.phase && s.dim == e.dim && s.direction == e.direction && s.meter == e.meter
    requires s.statsRtt == if e.meter.rttEwma.Some? then e.meter.rttEwma.value else e.statsRtt
    requires s.params == e.params.(chunkSize := chunk)
    ensures var i := Measured(s, mbps);
            i.bdp > 0 && i.inFlight >= i.bdp <==>
            e.phase == Ramping && e.dim == Concurrency && Holds(e, mbps, chunk)
  {
    var rtt := if e.meter.rttEwma.Some? then e.meter.rttEwma.value else e.statsRtt;
    PipeMeasured(s, mbps, rtt);
    PipeOf(s.params, s.direction, mbps, rtt);
    InFlightIs(s, e.params.concurrency, Value(e, Window), chunk);
  }

  lemma PipeMeasured(s: Engine, mbps: real, rtt: real)
    requires s.caps.Some? && rtt == if s.meter.rttEwma.Some? then s.meter.rttEwma.value else s.statsRtt
    ensures var i := Measured(s, mbps);
            && i.inFlight == InFlight(s.params, s.direction)
            && i.bdp == if s.phase == Ramping && s.dim == Concurrency then BdpBytes(mbps, rtt) else 0
  {
  }

  lemma InFlightIs(s: Engine, files: nat, window: nat, chunk: nat)
    requires s.params.concurrency == files && DimValue(s.params, Window, s.direction) == window && s.params.chunkSize == chunk
    ensures InFlight(s.params, s.direction) == files * window * chunk
  {
  }

  lemma PipeOf(p: TuneParams, kind: TransferKind, mbps: real, rtt: real)
    requires InCeilings(p)
    ensures BdpBytes(mbps, rtt) > 0 && InFlight(p, kind) >= BdpBytes(mbps, rtt) <==>
            Covered(mbps * 125.0 * rtt, InFlight(p, kind))
  {
    ProductOf(mbps, rtt);
    SmallProduct(p.concurrency, DimValue(p, Window, kind), p.chunkSize);
    Saturated(mbps * 125.0 * rtt, InFlight(p, kind));
  }

  lemma ProductOf(mbps: real, rtt: real)
    ensures mbps * 1000000.0 / 8.0 * rtt / 1000.0 == mbps * 125.0 * rtt
  {
    var x := mbps * 125000.0;
    assert mbps * 1000000.0 / 8.0 == x;
    assert x * rtt == mbps * 125000.0 * rtt;
    assert x * rtt / 1000.0 == mbps * 125.0 * rtt by { Thousandth(mbps, rtt); }
  }

  lemma Thousandth(a: real, b: real)
    ensures a * 125000.0 * b / 1000.0 == a * 125.0 * b
  {
    var p := a * b;
    assert a * 125000.0 * b == 125000.0 * p;
    assert a * 125.0 * b == 125.0 * p;
  }

  lemma Saturated(x: real, held: nat)
    requires held < U64_MAX
    ensures ToU64(x) > 0 && held >= ToU64(x) <==> x >= 1.0 && held >= x.Floor
  {
  }

  // ---------------------------------------------------------------------------
  // The decision
  // ---------------------------------------------------------------------------

  /**
   * A closed window raises the dimension being ramped if and only if the engine is ramping, saw no
   * error, is below the cap, does not already fill the pipe, sees latency at most 30% over its
   * baseline, and moved at least 5% more than the window before. It doubles while that fits under
   * the cap, and adds one after.
   */
  lemma RaisesExactly(e: Engine, now: real, done: nat)
    requires InCeilings(e.params) && Closes(e, now)
    ensures var f := Evaluated(e, now, done);
            var v, cap := Value(e, e.dim), Cap(e, e.dim);
            && (Value(f, e.dim) > v <==> Room(e, now, done) && Grew(e, now, done))
            && (Value(f, e.dim) > v ==> Value(f, e.dim) == if 2 * v <= cap then 2 * v else v + 1)
  {
    Shown(e, now, done);
    var d := WindowOutcome(e, now, done);
    if d.action == Raise { RaisedTo(e, now, done); }
  }

  lemma RaisedTo(e: Engine, now: real, done: nat)
    requires InCeilings(e.params) && Closes(e, now)
    requires DecideRamp(Measured(Sized(e, Mbps(e.meter, now, done)), Mbps(e.meter, now, done))).action == Raise
    ensures Value(Evaluated(e, now, done), e.dim) == StepUp(Value(e, e.dim), Cap(e, e.dim))
  {
    RetunedInCeilings(e.params, Mbps(e.meter, now, done), e.caps.value);
  }

  /**
   * A window with an error degrades the engine, and halves the dimension; the others leave every
   * dimension alone unless they raise it.
   */
  lemma DegradesExactly(e: Engine, now: real, done: nat)
    requires InCeilings(e.params) && Closes(e, now)
    ensures var f := Evaluated(e, now, done);
            && (e.meter.windowErrors > 0 ==> f.phase == Degraded && Value(f, e.dim) == MaxInt(Value(e, e.dim) / 2, 1))
            && (f.phase == Degraded && e.phase != Degraded ==> e.meter.windowErrors > 0)
            && (Value(f, e.dim) < Value(e, e.dim) ==> e.meter.windowErrors > 0)
            && f.meter.prevMbps == Rate(e, now, done) && f.meter.windowErrors == 0
  {
    RateIsMbps(e, now, done);
    var d := WindowOutcome(e, now, done);
    RetunedInCeilings(e.params, Mbps(e.meter, now, done), e.caps.value);
  }

  /**
   * A ramping or degraded engine settles on a window without errors: at the cap of the last
   * dimension, with the pipe full, with latency inflated, or on the second window without growth when
   * there is no dimension left to explore or the engine is degraded.
   */
  lemma SettlesExactly(e: Engine, now: real, done: nat)
    requires InCeilings(e.params) && Closes(e, now) && e.phase in {Ramping, Degraded}
    ensures var last := e.dim == Concurrency;
            var stuck := Room(e, now, done) && !Grew(e, now, done);
            Evaluated(e, now, done).phase == Settled <==>
              && e.meter.windowErrors == 0
              && if Capped(e) then last
                 else if PipeFull(e, now, done) || Inflated(e) then true
                 else stuck && if e.meter.lowGainWindows >= 1 then last || e.phase == Degraded
                               else e.phase == Degraded && e.meter.degradedWindows >= 1
  {
    Shown(e, now, done);
    var d := WindowOutcome(e, now, done);
  }

  /**
   * The window dimension gives way to concurrency at its cap, or on the second window without growth
   * of an engine that is not degraded; concurrency gives way to nothing.
   */
  lemma AdvancesExactly(e: Engine, now: real, done: nat)
    requires InCeilings(e.params) && Closes(e, now)
    ensures var f := Evaluated(e, now, done);
            && (e.dim == Concurrency ==> f.dim == Concurrency)
            && (e.dim == Window ==>
                  (f.dim == Concurrency <==>
                   && e.meter.windowErrors == 0
                   && (Capped(e) ||
                       (Room(e, now, done) && !Grew(e, now, done) && e.meter.lowGainWindows >= 1 && e.phase != Degraded))))
  {
    Shown(e, now, done);
    var d := WindowOutcome(e, now, done);
  }

  /** The first window without growth only counts. */
  lemma HoldsExactly(e: Engine, now: real, done: nat)
    requires InCeilings(e.params) && Closes(e, now) && e.meter.lowGainWindows == 0
    requires Room(e, now, done) && !Grew(e, now, done)
    ensures var f := Evaluated(e, now, done);
            && SameRamp(f.params, e.params) && f.dim == e.dim && f.meter.lowGainWindows == 1
            && (e.phase != Degraded ==> f.phase == e.phase)
  {
    Shown(e, now, done);
    var d := WindowOutcome(e, now, done);
  }

  /** The chunk stays while the link asks for between half and one and a half times it, and else becomes what it asks for. */
  lemma DeadbandExactly(p: TuneParams, mbps: real, caps: Capabilities)
    requires InCeilings(p)
    ensures var target := ChunkForLink(mbps, caps.chunkSize, MaxChunkForBudget(p));
            Retuned(p, mbps, caps).chunkSize ==
            if MaxInt(p.chunkSize / 2, 1) <= target <= p.chunkSize * 3 / 2 then p.chunkSize else target
  {
  }

  // ---------------------------------------------------------------------------
  // Where a transfer starts
  // ---------------------------------------------------------------------------

  /** Each dimension is where the first table puts it, once inside the advertised range and the ceiling. */
  predicate StartsAt(p: TuneParams, from: TuneParams, caps: Capabilities) {
    && p.concurrency == Bounded(AsI64(from.concurrency), caps.concurrency, 64)
    && p.uploadWindow == Bounded(AsI64(from.uploadWindow), caps.uploadWindow, 64)
    && p.downloadWindow == Bounded(AsI64(from.downloadWindow), caps.downloadWindow, 64)
  }

  /**
   * A transfer starts from the remembered settle if and only if it was measured against these
   * capabilities in this direction; else from the cached one, if there is one; else it ramps from
   * the advertised minimums. Nothing measured before is carried over.
   */
  lemma BeginsFrom(e: Engine, caps: Capabilities, now: real, fixed: TuneParams, cached: Option<TuneParams>)
    requires e.enabled
    ensures var f := Begun(e, caps, now, fixed, cached);
            && f.meter == Meter(now, 0, 0, None, None, 0.0, 0, 0) && f.dim == Window && !f.postDegradeSettle
            && f.caps == Some(caps) && f.settled == e.settled && f.direction == e.direction
            && if e.settled.Some? && e.settled.value.1 == caps.hash && e.settled.value.2 == e.direction then
                 f.phase == Settled && StartsAt(f.params, e.settled.value.0, caps)
               else if cached.Some? then
                 f.phase == Settled && StartsAt(f.params, cached.value, caps)
               else
                 && f.phase == Ramping
                 && f.params.concurrency == FloorOf(caps.concurrency, 64)
                 && f.params.uploadWindow == FloorOf(caps.uploadWindow, 64)
                 && f.params.downloadWindow == FloorOf(caps.downloadWindow, 64)
  {
  }

  /** With tuning off the configured table is used, and ticks change nothing of it. */
  lemma DisabledIsStatic(e: Engine, caps: Capabilities, now: real, fixed: TuneParams, cached: Option<TuneParams>,
                         later: real, done: nat, rtt: Option<real>, error: bool)
    requires !e.enabled
    ensures var f := Begun(e, caps, now, fixed, cached);
            && f.phase == Uninitialized && StartsAt(f.params, fixed, caps) && InCeilings(f.params)
            && Ticked(f, later, done, rtt, error).params == f.params
  {
  }

  /** A failed transfer forgets the settle: the next one ramps from the minimums, whatever was remembered. */
  lemma FailureForgets(e: Engine, kind: TransferKind, caps: Capabilities, now: real, fixed: TuneParams)
    requires InBudget(e.params) && e.enabled
    ensures var f := Run(e, [End(false), Direct(kind), Begin(caps, now, fixed, None)]);
            f.phase == Ramping && f.direction == kind && f.params.concurrency == FloorOf(caps.concurrency, 64)
  {
    var end, direct, begin := End(false), Direct(kind), Begin(caps, now, fixed, None);
    assert [end, direct, begin][1..] == [direct, begin] && [direct, begin][1..] == [begin];
    var forgotten := Next(Next(e, end), direct);
    RunOne(forgotten, begin);
    BeginsFrom(forgotten, caps, now, fixed, None);
  }
}
