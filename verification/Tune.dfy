/**
 * The adaptive tuning engine (crates/libfw-client/src/tune.rs), with reals for its floats.
 * The advertised capabilities and a cached result come from outside and may hold any values.
 */
module Tune {
  import opened Wrappers

  const HARD_MAX_CONCURRENCY: int := 64
  const HARD_MAX_WINDOW: int := 64
  const HARD_MAX_CHUNK_SIZE: int := 16 * 1024 * 1024
  const HARD_MAX_IN_FLIGHT_BYTES: nat := 256 * 1024 * 1024
  const TUNE_WINDOW_MS: real := 1000.0
  const GAIN_THRESHOLD: real := 0.05
  const RTT_INFLATE_THRESHOLD: real := 0.30
  const RTT_EWMA_ALPHA: real := 0.25
  const TARGET_CHUNK_SPAN_MS: real := 100.0
  const CHUNK_ALIGN: nat := 64 * 1024
  const U64_MAX: nat := 0xFFFF_FFFF_FFFF_FFFF
  const I64_MAX: nat := 0x7FFF_FFFF_FFFF_FFFF

  type u64 = n: nat | n <= U64_MAX

  datatype TunePhase = Uninitialized | Ramping | Settled | Degraded
  datatype TransferKind = Upload | Download
  datatype RampDim = Window | Concurrency
  datatype RampAction = Raise | AdvanceDim | Settle | Degrade | Hold

  datatype IntRange = IntRange(min: int, max: int)
  datatype Capabilities = Capabilities(
    concurrency: IntRange, uploadWindow: IntRange, downloadWindow: IntRange, chunkSize: IntRange, hash: string)

  datatype TuneParams = TuneParams(concurrency: u64, uploadWindow: u64, downloadWindow: u64, chunkSize: u64)

  // ---------------------------------------------------------------------------
  // Clamping
  // ---------------------------------------------------------------------------

  function MinInt(a: int, b: int): int { if a <= b then a else b }
  function MaxInt(a: int, b: int): int { if a >= b then a else b }

  /** `i64::clamp`, for bounds in order. */
  function Clamp(v: int, lo: int, hi: int): (r: int)
    requires lo <= hi
    ensures lo <= r <= hi && (lo <= v <= hi ==> r == v)
  {
    MaxInt(lo, MinInt(v, hi))
  }

  /** A `u64` reinterpreted as an `i64`: large values turn negative. */
  function AsI64(v: u64): int { if v <= I64_MAX then v else v - U64_MAX - 1 }

  function FloorOf(range: IntRange, hardMax: int): (r: int)
    ensures 1 <= r <= MaxInt(hardMax, 1)
    ensures if range.min < 1 then r == 1 else if range.min <= hardMax then r == range.min else r == MaxInt(hardMax, 1)
  {
    Clamp(range.min, 1, MaxInt(hardMax, 1))
  }

  /** Never outside the ceiling, whatever the advertised range; inside it when it is a range. */
  function Bounded(v: int, range: IntRange, hardMax: int): (r: int)
    ensures 1 <= r <= MaxInt(hardMax, 1)
    ensures range.min <= range.max && 1 <= range.min && range.max <= hardMax ==> range.min <= r <= range.max
    ensures range.min <= range.max && MaxInt(1, range.min) <= v <= MinInt(range.max, hardMax) ==> r == v
  {
    var hard := MaxInt(hardMax, 1);
    var w := MaxInt(v, 1);
    if range.min > range.max then MaxInt(MinInt(w, hard), 1)
    else
      var lo := Clamp(range.min, 1, hard);
      Clamp(w, lo, MaxInt(MinInt(range.max, hard), lo))
  }

  function FromCapsMins(caps: Capabilities): TuneParams {
    TuneParams(
      FloorOf(caps.concurrency, HARD_MAX_CONCURRENCY),
      FloorOf(caps.uploadWindow, HARD_MAX_WINDOW),
      FloorOf(caps.downloadWindow, HARD_MAX_WINDOW),
      FloorOf(caps.chunkSize, HARD_MAX_CHUNK_SIZE))
  }

  function ClampedInto(p: TuneParams, caps: Capabilities): TuneParams {
    TuneParams(
      Bounded(AsI64(p.concurrency), caps.concurrency, HARD_MAX_CONCURRENCY),
      Bounded(AsI64(p.uploadWindow), caps.uploadWindow, HARD_MAX_WINDOW),
      Bounded(AsI64(p.downloadWindow), caps.downloadWindow, HARD_MAX_WINDOW),
      Bounded(AsI64(p.chunkSize), caps.chunkSize, HARD_MAX_CHUNK_SIZE))
  }

  // ---------------------------------------------------------------------------
  // The memory budget
  // ---------------------------------------------------------------------------

  function Widest(p: TuneParams): nat { MaxInt(MaxInt(p.uploadWindow, p.downloadWindow), 1) }

  /** Every dimension inside the client's own ceilings. */
  predicate InCeilings(p: TuneParams) {
    && 1 <= p.concurrency <= HARD_MAX_CONCURRENCY
    && 1 <= p.uploadWindow <= HARD_MAX_WINDOW
    && 1 <= p.downloadWindow <= HARD_MAX_WINDOW
    && 1 <= p.chunkSize <= HARD_MAX_CHUNK_SIZE
  }

  /** In the ceilings, and never more than 256 MiB in flight in either direction. */
  predicate InBudget(p: TuneParams) {
    InCeilings(p) && p.concurrency * Widest(p) * p.chunkSize <= HARD_MAX_IN_FLIGHT_BYTES
  }

  function MaxChunkForBudget(p: TuneParams): (r: int)
    ensures r >= 1
  {
    MaxInt(HARD_MAX_IN_FLIGHT_BYTES / (MaxInt(p.concurrency, 1) * Widest(p)), 1)
  }

  function Enforced(p: TuneParams): TuneParams
    requires p.chunkSize <= HARD_MAX_CHUNK_SIZE
  {
    p.(chunkSize := Clamp(p.chunkSize, 1, MinInt(MaxChunkForBudget(p), U64_MAX)))
  }

  lemma QuotientFits(total: nat, d: nat, q: nat)
    requires d > 0 && q <= total / d
    ensures d * q <= total
  {
    assert d * q <= d * (total / d);
  }

  lemma ProductWithin(a: nat, b: nat, n: nat)
    requires 1 <= a <= n && 1 <= b <= n
    ensures 1 <= a * b <= n * n
  {
    assert a * b <= a * n;
    assert a * n <= n * n;
    assert a * b >= a;
  }

  lemma EnforcedInBudget(p: TuneParams)
    requires InCeilings(p)
    ensures InBudget(Enforced(p))
  {
    var d := p.concurrency * Widest(p);
    ProductWithin(p.concurrency, Widest(p), 64);
    assert HARD_MAX_IN_FLIGHT_BYTES / d >= 1;
    QuotientFits(HARD_MAX_IN_FLIGHT_BYTES, d, Enforced(p).chunkSize);
  }

  // ---------------------------------------------------------------------------
  // Measurements
  // ---------------------------------------------------------------------------

  function Ewma(prev: Option<real>, sample: real, alpha: real): real {
    match prev
    case None => sample
    case Some(p) => alpha * sample + (1.0 - alpha) * p
  }

  /** A float cast to `u64`: truncated, and saturating at both ends. */
  function ToU64(x: real): u64 {
    if x <= 0.0 then 0 else if x.Floor > U64_MAX then U64_MAX else x.Floor
  }

  function BdpBytes(mbps: real, rttMs: real): u64 {
    ToU64(mbps * 1000000.0 / 8.0 * rttMs / 1000.0)
  }

  const TWO_63: real := 9223372036854775808.0

  /** What the link moves in a tenth of a second, in bytes. */
  function Span(mbps: real): real { mbps * 1000000.0 / 8.0 * TARGET_CHUNK_SPAN_MS / 1000.0 }

  /** A transfer's size aligned down to 64 KiB, inside range and budget. */
  function ChunkOf(bytes: u64, range: IntRange, budgetMax: int): (r: int)
    requires budgetMax >= 1
    ensures 1 <= r <= HARD_MAX_CHUNK_SIZE && r <= budgetMax
  {
    var aligned: nat := bytes / CHUNK_ALIGN * CHUNK_ALIGN;
    Clamp(Bounded(AsI64(MaxInt(aligned, 1)), range, HARD_MAX_CHUNK_SIZE), 1, budgetMax)
  }

  /** A tenth of a second of the link; a link without traffic gets the advertised minimum. */
  function ChunkForLink(mbps: real, range: IntRange, budgetMax: int): (r: int)
    requires budgetMax >= 1
    ensures 1 <= r <= HARD_MAX_CHUNK_SIZE && r <= budgetMax
  {
    if mbps <= 0.0 then MaxInt(MinInt(FloorOf(range, HARD_MAX_CHUNK_SIZE), budgetMax), 1)
    else ChunkOf(ToU64(if Span(mbps) > TWO_63 then TWO_63 else Span(mbps)), range, budgetMax)
  }

  lemma SpanGrows(a: real, b: real)
    requires 0.0 < a <= b
    ensures 0.0 < Span(a) <= Span(b)
  {
  }

  lemma BoundedGrows(v: int, w: int, range: IntRange, hardMax: int)
    requires v <= w
    ensures Bounded(v, range, hardMax) <= Bounded(w, range, hardMax)
  {
  }

  lemma AlignedGrows(a: nat, b: nat)
    requires a <= b
    ensures 0 <= a / CHUNK_ALIGN * CHUNK_ALIGN <= b / CHUNK_ALIGN * CHUNK_ALIGN <= b
    ensures b / CHUNK_ALIGN * CHUNK_ALIGN == b - b % CHUNK_ALIGN
  {
  }

  lemma ChunkOfGrows(a: u64, b: u64, range: IntRange, budgetMax: int)
    requires a <= b <= I64_MAX && budgetMax >= 1
    ensures ChunkOf(a, range, budgetMax) <= ChunkOf(b, range, budgetMax)
  {
    AlignedGrows(a, b);
    BoundedGrows(MaxInt(a / CHUNK_ALIGN * CHUNK_ALIGN, 1), MaxInt(b / CHUNK_ALIGN * CHUNK_ALIGN, 1), range, HARD_MAX_CHUNK_SIZE);
  }

  lemma ChunkOfLeast(b: u64, range: IntRange, budgetMax: int)
    requires range.min <= range.max && budgetMax >= 1
    ensures MinInt(FloorOf(range, HARD_MAX_CHUNK_SIZE), budgetMax) <= ChunkOf(b, range, budgetMax)
    ensures b == I64_MAX + 1 ==> ChunkOf(b, range, budgetMax) == MinInt(FloorOf(range, HARD_MAX_CHUNK_SIZE), budgetMax)
  {
  }

  /**
   * For an advertised range a faster link never gets a smaller chunk, up to 2^63 bytes a tenth of a
   * second. From there on a cast turns negative, and the chunk falls back to the advertised minimum.
   */
  lemma ChunkGrows(slow: real, fast: real, range: IntRange, budgetMax: int)
    requires slow <= fast && range.min <= range.max && budgetMax >= 1
    ensures Span(fast) < TWO_63 ==> ChunkForLink(slow, range, budgetMax) <= ChunkForLink(fast, range, budgetMax)
    ensures fast > 0.0 && Span(fast) >= TWO_63 ==> ChunkForLink(fast, range, budgetMax) == ChunkForLink(0.0, range, budgetMax)
  {
    if fast > 0.0 {
      SpanGrows(fast, fast);
      if Span(fast) >= TWO_63 {
        assert ToU64(TWO_63) == I64_MAX + 1;
        ChunkOfLeast(I64_MAX + 1, range, budgetMax);
      } else if slow > 0.0 {
        SpanGrows(slow, fast);
        ChunkOfGrows(ToU64(Span(slow)), ToU64(Span(fast)), range, budgetMax);
      } else {
        ChunkOfLeast(ToU64(Span(fast)), range, budgetMax);
      }
    }
  }

  /** Inside range and budget the chunk is what the link moves in a tenth of a second, aligned down. */
  lemma ChunkTracksLink(mbps: real, range: IntRange, budgetMax: int)
    requires mbps > 0.0 && Span(mbps) < TWO_63 && budgetMax >= 1 && range.min <= range.max
    ensures var aligned := Span(mbps).Floor - Span(mbps).Floor % CHUNK_ALIGN;
            (MaxInt(1, range.min) <= aligned <= MinInt(MinInt(range.max, HARD_MAX_CHUNK_SIZE), budgetMax)) ==>
              ChunkForLink(mbps, range, budgetMax) == aligned
  {
    SpanGrows(mbps, mbps);
    var bytes := ToU64(Span(mbps));
    AlignedGrows(0, bytes);
  }

  /** The deadband: the chunk moves only when the link asks for half or one and a half times it. */
  function Retuned(p: TuneParams, mbps: real, caps: Capabilities): TuneParams
    requires p.chunkSize <= HARD_MAX_CHUNK_SIZE
  {
    var target := ChunkForLink(mbps, caps.chunkSize, MaxChunkForBudget(p));
    var current := MaxInt(p.chunkSize, 1);
    if target > current * 3 / 2 || target < MaxInt(current / 2, 1) then Enforced(p.(chunkSize := target)) else p
  }

  // ---------------------------------------------------------------------------
  // The ramped dimensions
  // ---------------------------------------------------------------------------

  function DimValue(p: TuneParams, dim: RampDim, kind: TransferKind): nat {
    match dim
    case Window => (match kind case Upload => p.uploadWindow case Download => p.downloadWindow)
    case Concurrency => p.concurrency
  }

  function WithDim(p: TuneParams, dim: RampDim, kind: TransferKind, v: u64): TuneParams {
    match dim
    case Window => (match kind case Upload => p.(uploadWindow := v) case Download => p.(downloadWindow := v))
    case Concurrency => p.(concurrency := v)
  }

  function DimMax(caps: Capabilities, dim: RampDim, kind: TransferKind): (r: int)
    ensures 1 <= r <= 64
  {
    var advertised :=
      match dim
      case Window => (match kind case Upload => caps.uploadWindow.max case Download => caps.downloadWindow.max)
      case Concurrency => caps.concurrency.max;
    MaxInt(MinInt(advertised, if dim.Window? then HARD_MAX_WINDOW else HARD_MAX_CONCURRENCY), 1)
  }

  /** Doubling while it fits, then one at a time. */
  function StepUp(v: nat, dimMax: int): int {
    if v == 0 then 1 else if v * 2 <= dimMax then v * 2 else MinInt(v + 1, dimMax)
  }

  function Raised(p: TuneParams, caps: Capabilities, dim: RampDim, kind: TransferKind): TuneParams
    requires InCeilings(p)
  {
    WithDim(p, dim, kind, MaxInt(StepUp(DimValue(p, dim, kind), DimMax(caps, dim, kind)), 1))
  }

  function Halved(p: TuneParams, dim: RampDim, kind: TransferKind): TuneParams {
    WithDim(p, dim, kind, MaxInt(DimValue(p, dim, kind) / 2, 1))
  }

  function NextDim(dim: RampDim): RampDim { Concurrency }

  // ---------------------------------------------------------------------------
  // The ramp decision
  // ---------------------------------------------------------------------------

  datatype RampInput = RampInput(
    mbps: real, prevMbps: real, rttInflation: real, errors: nat, degraded: bool, ramping: bool,
    lowGainWindows: nat, inFlight: nat, bdp: nat, atCap: bool, lastDim: bool)

  datatype Decision = Decision(action: RampAction, low: nat)

  function Gain(i: RampInput): real {
    if i.degraded then 0.0
    else if i.prevMbps > 0.0 then i.mbps / i.prevMbps - 1.0
    else if i.ramping then 1.0 else 0.0
  }

  function DecideRamp(i: RampInput): Decision {
    if i.errors > 0 then Decision(Degrade, 0)
    else if i.atCap then Decision(if i.lastDim then Settle else AdvanceDim, 0)
    else if i.bdp > 0 && i.inFlight >= i.bdp then Decision(Settle, 0)
    else if i.rttInflation > RTT_INFLATE_THRESHOLD then Decision(Settle, 0)
    else if i.ramping && Gain(i) >= GAIN_THRESHOLD then Decision(Raise, 0)
    else
      var low := i.lowGainWindows + 1;
      if low < 2 then Decision(Hold, low)
      else if i.degraded || i.lastDim then Decision(Settle, low)
      else Decision(AdvanceDim, 0)
  }

  // ---------------------------------------------------------------------------
  // The engine as a value, and its operations
  // ---------------------------------------------------------------------------

  /** The measurement state of one transfer: the open window, and what earlier ones left behind. */
  datatype Meter = Meter(
    windowStart: real, doneBase: nat, windowErrors: nat, rttEwma: Option<real>, rttBaseline: Option<real>,
    prevMbps: real, lowGainWindows: nat, degradedWindows: nat)

  datatype Engine = Engine(
    enabled: bool, phase: TunePhase, caps: Option<Capabilities>, params: TuneParams, meter: Meter, statsRtt: real,
    dim: RampDim, settled: Option<(TuneParams, string, TransferKind)>, postDegradeSettle: bool,
    direction: TransferKind)

  /** The settle of an earlier transfer, if it was measured against these caps and direction. */
  function InMemory(e: Engine, caps: Capabilities): Option<TuneParams> {
    match e.settled
    case None => None
    case Some((p, hash, kind)) => if hash == caps.hash && kind == e.direction then Some(p) else None
  }

  /** Nothing measured on an earlier transfer leaks into the next. */
  function NewMeter(now: real): Meter { Meter(now, 0, 0, None, None, 0.0, 0, 0) }

  /** `begin_transfer`; `cached` is whatever the persistent store gives back. */
  function Begun(e: Engine, caps: Capabilities, now: real, fixed: TuneParams, cached: Option<TuneParams>): Engine {
    var reset := e.(caps := Some(caps), meter := NewMeter(now), postDegradeSettle := false);
    if !e.enabled then reset.(phase := Uninitialized, params := Enforced(ClampedInto(fixed, caps)))
    else
      var reusable := if InMemory(e, caps).Some? then InMemory(e, caps) else cached;
      match reusable
      case Some(p) => reset.(phase := Settled, params := Enforced(ClampedInto(p, caps)), dim := Window)
      case None => reset.(phase := Ramping, params := Enforced(FromCapsMins(caps)), statsRtt := 0.0, dim := Window)
  }

  function Sampled(m: Meter, enabled: bool, rtt: Option<real>, error: bool): Meter {
    var counted := if error then m.(windowErrors := m.windowErrors + 1) else m;
    match rtt
    case None => counted
    case Some(r) =>
      if r <= 0.0 then counted
      else
        var smoothed := Some(Ewma(m.rttEwma, r, RTT_EWMA_ALPHA));
        counted.(rttEwma := smoothed,
                 rttBaseline := if enabled && m.rttBaseline.None? then smoothed else m.rttBaseline)
  }

  predicate Closes(e: Engine, now: real) {
    now - e.meter.windowStart >= TUNE_WINDOW_MS && e.enabled && e.caps.Some?
  }

  function RttInflation(m: Meter): real {
    if m.rttEwma.Some? && m.rttBaseline.Some? && m.rttBaseline.value > 0.0 then
      var growth := m.rttEwma.value / m.rttBaseline.value - 1.0;
      if growth > 0.0 then growth else 0.0
    else 0.0
  }

  function InFlight(p: TuneParams, kind: TransferKind): nat {
    p.concurrency * DimValue(p, Window, kind) * p.chunkSize
  }

  function AtCap(e: Engine): bool
    requires e.caps.Some?
  {
    DimValue(e.params, e.dim, e.direction) >= DimMax(e.caps.value, e.dim, e.direction)
  }

  /** What one closed window hands to the ramp decision. */
  function Measured(e: Engine, mbps: real): RampInput
    requires e.caps.Some?
  {
    var ramping := e.phase == Ramping;
    var bdp := BdpBytes(mbps, if e.meter.rttEwma.Some? then e.meter.rttEwma.value else e.statsRtt);
    RampInput(
      mbps, e.meter.prevMbps, if ramping then RttInflation(e.meter) else 0.0, e.meter.windowErrors,
      e.phase == Degraded, ramping, e.meter.lowGainWindows, InFlight(e.params, e.direction),
      if ramping && e.dim == Concurrency then bdp else 0, AtCap(e), e.dim == Concurrency)
  }

  /** Carrying out the decision. */
  function Applied(e: Engine, action: RampAction): Engine
    requires e.caps.Some? && InCeilings(e.params)
  {
    match action
    case Raise =>
      e.(params := Enforced(Raised(e.params, e.caps.value, e.dim, e.direction)),
         phase := if e.phase == Degraded then Ramping else e.phase)
    case AdvanceDim => e.(dim := NextDim(e.dim))
    case Settle =>
      e.(phase := Settled, meter := e.meter.(lowGainWindows := 0),
         settled := if e.postDegradeSettle then e.settled else Some((e.params, e.caps.value.hash, e.direction)))
    case Degrade =>
      e.(params := Halved(e.params, e.dim, e.direction), phase := Degraded,
         meter := e.meter.(degradedWindows := 0, lowGainWindows := 0))
    case Hold =>
      if e.phase != Degraded then e
      else
        var held := e.(meter := e.meter.(degradedWindows := e.meter.degradedWindows + 1));
        if held.meter.degradedWindows >= 2 then held.(phase := Settled, postDegradeSettle := true) else held
  }

  function Mbps(m: Meter, now: real, done: nat): real {
    var elapsed := now - m.windowStart;
    var bytes := if done >= m.doneBase then done - m.doneBase else 0;
    if elapsed > 0.0 then bytes as real / elapsed * 1000.0 * 8.0 / 1000000.0 else 0.0
  }

  /** The chunk size follows the link on every window, whatever the phase. */
  function Sized(e: Engine, mbps: real): (r: Engine)
    requires e.caps.Some? && InCeilings(e.params)
    ensures InCeilings(r.params)
  {
    RetunedInCeilings(e.params, mbps, e.caps.value);
    e.(statsRtt := if e.meter.rttEwma.Some? then e.meter.rttEwma.value else e.statsRtt,
       params := Retuned(e.params, mbps, e.caps.value))
  }

  /** One closed window. */
  function Evaluated(e: Engine, now: real, done: nat): Engine
    requires Closes(e, now) && InCeilings(e.params)
  {
    var mbps := Mbps(e.meter, now, done);
    var sized := Sized(e, mbps);
    var d := DecideRamp(Measured(sized, mbps));
    var next := Applied(sized.(meter := sized.meter.(lowGainWindows := d.low, prevMbps := mbps)), d.action);
    next.(meter := next.meter.(windowStart := now, doneBase := done, windowErrors := 0))
  }

  function Ticked(e: Engine, now: real, done: nat, rtt: Option<real>, error: bool): Engine
    requires InCeilings(e.params)
  {
    var s := e.(meter := Sampled(e.meter, e.enabled, rtt, error));
    if Closes(s, now) then Evaluated(s, now, done) else s
  }

  function Ended(e: Engine, ok: bool): Engine {
    if e.enabled && !ok then e.(settled := None, phase := Ramping) else e
  }

  lemma RetunedInCeilings(p: TuneParams, mbps: real, caps: Capabilities)
    requires InCeilings(p)
    ensures InCeilings(Retuned(p, mbps, caps))
    ensures InBudget(p) ==> InBudget(Retuned(p, mbps, caps))
    ensures var q := Retuned(p, mbps, caps);
            q.concurrency == p.concurrency && q.uploadWindow == p.uploadWindow && q.downloadWindow == p.downloadWindow
  {
    var target := ChunkForLink(mbps, caps.chunkSize, MaxChunkForBudget(p));
    EnforcedInBudget(p.(chunkSize := target));
  }

  // ---------------------------------------------------------------------------
  // The engine
  // ---------------------------------------------------------------------------

  class TuningEngine {
    const enabled: bool
    var phase: TunePhase
    var caps: Option<Capabilities>
    var params: TuneParams
    var meter: Meter
    var statsRtt: real
    var dim: RampDim
    var settled: Option<(TuneParams, string, TransferKind)>
    var postDegradeSettle: bool
    var direction: TransferKind

    ghost function State(): Engine
      reads this
    {
      Engine(enabled, phase, caps, params, meter, statsRtt, dim, settled, postDegradeSettle, direction)
    }

    constructor (enabled: bool)
      ensures State() == NewEngine(enabled)
    {
      this.enabled, phase, caps, params := enabled, Uninitialized, None, TuneParams(1, 1, 1, 1);
      meter, statsRtt, dim := NewMeter(0.0), 0.0, Window;
      settled, postDegradeSettle, direction := None, false, Download;
    }

    method SetDirection(kind: TransferKind)
      modifies this`direction
      ensures State() == old(State()).(direction := kind)
    {
      direction := kind;
    }

    method EnforceInFlightBudget()
      requires params.chunkSize <= HARD_MAX_CHUNK_SIZE
      modifies this`params
      ensures params == Enforced(old(params))
    {
      var maxChunk := MaxChunkForBudget(params);
      params := params.(chunkSize := Clamp(params.chunkSize, 1, MinInt(maxChunk, U64_MAX)));
    }

    method BeginTransfer(caps: Capabilities, now: real, fixed: TuneParams, cached: Option<TuneParams>)
      modifies this
      ensures State() == Begun(old(State()), caps, now, fixed, cached)
    {
      this.caps, meter, postDegradeSettle := Some(caps), NewMeter(now), false;
      if !enabled {
        phase := Uninitialized;
        params := ClampedInto(fixed, caps);
        EnforceInFlightBudget();
        return;
      }
      var reusable := cached;
      if settled.Some? && settled.value.1 == caps.hash && settled.value.2 == direction {
        reusable := Some(settled.value.0);
      }
      if reusable.Some? {
        params := ClampedInto(reusable.value, caps);
        phase := Settled;
      } else {
        params := FromCapsMins(caps);
        statsRtt := 0.0;
        phase := Ramping;
      }
      dim := Window;
      EnforceInFlightBudget();
    }

    method Sample(rtt: Option<real>, error: bool)
      modifies this`meter
      ensures meter == Sampled(old(meter), enabled, rtt, error)
    {
      if error { meter := meter.(windowErrors := meter.windowErrors + 1); }
      if rtt.Some? && rtt.value > 0.0 {
        var smoothed := Ewma(meter.rttEwma, rtt.value, RTT_EWMA_ALPHA);
        if enabled && meter.rttBaseline.None? { meter := meter.(rttBaseline := Some(smoothed)); }
        meter := meter.(rttEwma := Some(smoothed));
      }
    }

    method RetuneChunkSize(mbps: real, caps: Capabilities)
      requires params.chunkSize <= HARD_MAX_CHUNK_SIZE
      modifies this`params
      ensures params == Retuned(old(params), mbps, caps)
    {
      var target := ChunkForLink(mbps, caps.chunkSize, MaxChunkForBudget(params));
      var current := MaxInt(params.chunkSize, 1);
      if target > current * 3 / 2 || target < MaxInt(current / 2, 1) {
        params := params.(chunkSize := target);
        EnforceInFlightBudget();
      }
    }

    method Apply(action: RampAction, caps: Capabilities)
      requires InCeilings(params) && this.caps == Some(caps)
      modifies this
      ensures State() == Applied(old(State()), action)
    {
      match action {
        case Raise =>
          params := Raised(params, caps, dim, direction);
          EnforceInFlightBudget();
          if phase == Degraded { phase := Ramping; }
        case AdvanceDim =>
          dim := NextDim(dim);
        case Settle =>
          phase, meter := Settled, meter.(lowGainWindows := 0);
          if !postDegradeSettle { settled := Some((params, caps.hash, direction)); }
        case Degrade =>
          params := Halved(params, dim, direction);
          phase, meter := Degraded, meter.(degradedWindows := 0, lowGainWindows := 0);
        case Hold =>
          if phase == Degraded {
            meter := meter.(degradedWindows := meter.degradedWindows + 1);
            if meter.degradedWindows >= 2 { phase, postDegradeSettle := Settled, true; }
          }
      }
    }

    method Tick(now: real, done: nat, rtt: Option<real>, error: bool)
      requires InCeilings(params)
      modifies this
      ensures State() == Ticked(old(State()), now, done, rtt, error)
    {
      Sample(rtt, error);
      if now - meter.windowStart < TUNE_WINDOW_MS || !enabled || caps.None? { return; }
      CloseWindow(now, done);
    }

    method CloseWindow(now: real, done: nat)
      requires Closes(State(), now) && InCeilings(params)
      modifies this
      ensures State() == Evaluated(old(State()), now, done)
    {
      var elapsed := now - meter.windowStart;
      var bytes := if done >= meter.doneBase then done - meter.doneBase else 0;
      var mbps := if elapsed > 0.0 then bytes as real / elapsed * 1000.0 * 8.0 / 1000000.0 else 0.0;
      ghost var start := State();
      SizeChunk(mbps);
      ghost var sized := State();
      assert sized == Sized(start, mbps);
      var input := Measure(mbps);
      var d := DecideRamp(input);
      meter := meter.(lowGainWindows := d.low, prevMbps := mbps);
      Apply(d.action, caps.value);
      meter := meter.(windowStart := now, doneBase := done, windowErrors := 0);
    }

    /** The statistics, and the chunk size for the link just measured. */
    method SizeChunk(mbps: real)
      requires caps.Some? && InCeilings(params)
      modifies this`statsRtt, this`params
      ensures State() == Sized(old(State()), mbps) && InCeilings(params)
    {
      if meter.rttEwma.Some? { statsRtt := meter.rttEwma.value; }
      RetunedInCeilings(params, mbps, caps.value);
      RetuneChunkSize(mbps, caps.value);
    }

    method Measure(mbps: real) returns (input: RampInput)
      requires caps.Some?
      ensures input == Measured(State(), mbps)
    {
      var ramping := phase == Ramping;
      var inflation := 0.0;
      if ramping && meter.rttEwma.Some? && meter.rttBaseline.Some? && meter.rttBaseline.value > 0.0 {
        inflation := meter.rttEwma.value / meter.rttBaseline.value - 1.0;
        if inflation < 0.0 { inflation := 0.0; }
      }
      var bdp := 0;
      if ramping && dim == Concurrency {
        bdp := BdpBytes(mbps, if meter.rttEwma.Some? then meter.rttEwma.value else statsRtt);
      }
      var atCap := DimValue(params, dim, direction) >= DimMax(caps.value, dim, direction);
      input := RampInput(
        mbps, meter.prevMbps, inflation, meter.windowErrors, phase == Degraded, ramping, meter.lowGainWindows,
        InFlight(params, direction), bdp, atCap, dim == Concurrency);
    }

    method TransferEnd(ok: bool)
      modifies this`settled, this`phase
      ensures State() == Ended(old(State()), ok)
    {
      if !enabled { return; }
      if !ok { settled, phase := None, Ramping; }
    }
  }

  function NewEngine(enabled: bool): Engine {
    Engine(enabled, Uninitialized, None, TuneParams(1, 1, 1, 1), NewMeter(0.0), 0.0, Window, None, false, Download)
  }

  lemma AppliedInBudget(e: Engine, action: RampAction)
    requires e.caps.Some? && InBudget(e.params)
    ensures InBudget(Applied(e, action).params)
  {
    match action
    case Raise => EnforcedInBudget(Raised(e.params, e.caps.value, e.dim, e.direction));
    case Degrade => HalvedInBudget(e.params, e.dim, e.direction);
    case _ =>
  }

  lemma ProductShrinks(a: nat, b: nat, c: nat, d: nat, k: nat)
    requires a <= c && b <= d
    ensures a * b * k <= c * d * k
  {
    assert a * b <= a * d <= c * d;
    var n, m := a * b, c * d;
    assert n * k <= m * k;
  }

  lemma HalvedInBudget(p: TuneParams, dim: RampDim, kind: TransferKind)
    requires InBudget(p)
    ensures InBudget(Halved(p, dim, kind))
  {
    var q := Halved(p, dim, kind);
    ProductShrinks(q.concurrency, Widest(q), p.concurrency, Widest(p), p.chunkSize);
  }
}
