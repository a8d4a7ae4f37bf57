/**
 * The per-exporter flow population of `FlowGenerator`, as functions on values: one function per
 * phase of `tick` (split the byte budget, end or time out flows, spawn flows) and one per
 * operation (build, tick, shutdown).  The class in module Generator is proved to follow them.
 */
module GeneratorSpec {
  import opened JavaNum
  import opened Zufall
  import opened IntegerZufall
  import opened Reports
  import opened Flows

  /** The builder's values: target rate (bytes per second), the flow-duration sampler's bounds
      (milliseconds), the flow-count limit and the active timeout (milliseconds). */
  datatype Config = Config(bytesPerSecond: Long, durations: Bounds, maxFlowCount: Int, activeTimeout: int)

  /** The mutable part of a generator: its ongoing flows in list order, the last tick instant,
      and how many draws the shared random source has handed out. */
  datatype GenState = GenState(flows: seq<FlowState>, lastTick: int, cursor: nat)

  /** The outcome of one operation: the new state and the reports it returns.  When `thrown`
      holds, the operation ended in an `ArithmeticException` and returned no reports. */
  datatype Step = Step(state: GenState, reports: seq<FlowReport>, thrown: bool)

  /** No `nextLong()` draw is `Long.MIN_VALUE`, the one value whose `Math.abs` stays negative. */
  ghost predicate NoMinValueDraws(draws: nat -> Long)
  {
    forall i :: draws(i) != LONG_MIN
  }

  // ---------------------------------------------------------------------------------------
  // Sums over the population

  function RateSum(fs: seq<FlowState>): int
  {
    if fs == [] then 0 else RateSum(fs[..|fs| - 1]) + fs[|fs| - 1].rate
  }

  function Pending(fs: seq<FlowState>): int
  {
    if fs == [] then 0 else Pending(fs[..|fs| - 1]) + fs[|fs| - 1].bytes
  }

  predicate RatesPositive(fs: seq<FlowState>)
  {
    forall i :: 0 <= i < |fs| ==> fs[i].rate >= 1
  }

  lemma {:induction false} RateSumConcat(a: seq<FlowState>, b: seq<FlowState>)
    ensures RateSum(a + b) == RateSum(a) + RateSum(b)
    decreases |b|
  {
    if b == [] {
      assert a + b == a;
    } else {
      assert (a + b)[..|a + b| - 1] == a + b[..|b| - 1];
      RateSumConcat(a, b[..|b| - 1]);
    }
  }

  lemma {:induction false} PendingConcat(a: seq<FlowState>, b: seq<FlowState>)
    ensures Pending(a + b) == Pending(a) + Pending(b)
    decreases |b|
  {
    if b == [] {
      assert a + b == a;
    } else {
      assert (a + b)[..|a + b| - 1] == a + b[..|b| - 1];
      PendingConcat(a, b[..|b| - 1]);
    }
  }

  /** With positive rates the rate sum is at least the number of flows. */
  lemma {:induction false} RateSumAtLeastCount(fs: seq<FlowState>)
    requires RatesPositive(fs)
    ensures RateSum(fs) >= |fs|
    decreases |fs|
  {
    if fs != [] {
      RateSumAtLeastCount(fs[..|fs| - 1]);
    }
  }

  // ---------------------------------------------------------------------------------------
  // Phase 1: split the tick's byte budget across the ongoing flows

  /** `Math.round` on an exact value: the integer nearest x, a tie going up. */
  function RoundHalfUp(x: real): (r: int)
    ensures x - 0.5 < r as real <= x + 0.5
  {
    (x + 0.5).Floor
  }

  /** The tick length in seconds, `tick.toMillis() / 1000.0` taken exactly. */
  function Seconds(tickMs: int): real
  {
    tickMs as real / 1000.0
  }

  /** A whole number of thousandths, divided by 1000 and rounded half up, in integer arithmetic. */
  function RoundThousandths(x: int): (r: int)
    ensures r * 1000 <= x + 500 < r * 1000 + 1000
  {
    (x + 500) / 1000
  }

  /** The product a * b by repeated addition.  Budgets are built from it so that proofs which only
      pass budgets along are not drawn into nonlinear arithmetic; `TimesIsMul` relates it to `*`. */
  function Times(a: int, b: int): int
    decreases if a < 0 then -a else a
  {
    if a == 0 then 0 else if a > 0 then Times(a - 1, b) + b else Times(a + 1, b) - b
  }

  lemma {:induction false} TimesIsMul(a: int, b: int)
    ensures Times(a, b) == a * b
    decreases if a < 0 then -a else a
  {
    if a > 0 {
      TimesIsMul(a - 1, b);
      assert (a - 1) * b + b == a * b;
    } else if a < 0 {
      TimesIsMul(a + 1, b);
      assert (a + 1) * b - b == a * b;
    }
  }

  /** The tick's whole byte budget, rounded: the target rate times the tick length. */
  function TickBytes(bytesPerSecond: int, tickMs: int): int
  {
    RoundThousandths(Times(bytesPerSecond, tickMs))
  }

  /** A flow's own share of a tick, rounded: its rate times the tick length. */
  function FlowShare(tickMs: int, rate: int): int
  {
    RoundThousandths(Times(tickMs, rate))
  }

  /** The integer rounding is `Math.round` of the exact quotient. */
  lemma RoundThousandthsIsRoundHalfUp(x: int)
    ensures RoundThousandths(x) == RoundHalfUp(x as real / 1000.0)
  {
    var r := RoundThousandths(x);
    assert x as real / 1000.0 + 0.5 == (x + 500) as real / 1000.0;
    assert r as real <= (x + 500) as real / 1000.0 < r as real + 1.0;
  }

  /** Rounding commutes with shifting by a whole number. */
  lemma RoundHalfUpShift(x: real, n: int)
    ensures RoundHalfUp(x - n as real) == RoundHalfUp(x) - n
  {
    var f := (x + 0.5).Floor;
    assert f as real <= x + 0.5 < f as real + 1.0;
    assert (f - n) as real <= x - n as real + 0.5 < (f - n) as real + 1.0;
  }

  /** The shares are what the loop rounds: `bytesPerSecond * tickDurationInSeconds` for the whole
      tick, `tickDurationInSeconds * rate` for one flow, and the budget less what the other flows
      took for the oldest flow, each taken exactly and rounded half up. */
  lemma SharesAreRounded(bytesPerSecond: int, tickMs: int, rate: int, others: int)
    ensures TickBytes(bytesPerSecond, tickMs) == RoundHalfUp(bytesPerSecond as real * Seconds(tickMs))
    ensures FlowShare(tickMs, rate) == RoundHalfUp(Seconds(tickMs) * rate as real)
    ensures TickBytes(bytesPerSecond, tickMs) - others
            == RoundHalfUp(bytesPerSecond as real * Seconds(tickMs) - others as real)
  {
    TimesIsMul(bytesPerSecond, tickMs);
    TimesIsMul(tickMs, rate);
    RoundThousandthsIsRoundHalfUp(bytesPerSecond * tickMs);
    assert bytesPerSecond as real * Seconds(tickMs) == (bytesPerSecond * tickMs) as real / 1000.0;
    RoundThousandthsIsRoundHalfUp(tickMs * rate);
    assert Seconds(tickMs) * rate as real == (tickMs * rate) as real / 1000.0;
    RoundHalfUpShift(bytesPerSecond as real * Seconds(tickMs), others);
  }

  /** The rounded own shares of the given flows, in order. */
  function Shares(fs: seq<FlowState>, tickMs: int): (r: seq<int>)
    ensures |r| == |fs|
    decreases |fs|
  {
    if fs == [] then [] else Shares(fs[..|fs| - 1], tickMs) + [FlowShare(tickMs, fs[|fs| - 1].rate)]
  }

  /** Every given flow receives its own rounded share. */
  function AddShares(fs: seq<FlowState>, tickMs: int): (r: seq<FlowState>)
    ensures |r| == |fs|
    decreases |fs|
  {
    if fs == [] then []
    else
      var f := fs[|fs| - 1];
      AddShares(fs[..|fs| - 1], tickMs) + [Transmitted(f, FlowShare(tickMs, f.rate))]
  }

  /** The transmit loop: the flows at indices 1 and up receive their own rounded share, and the
      oldest flow (index 0) receives what is left of the budget, rounded, which is the rounded
      budget less the other shares (`SharesAreRounded`). */
  function Distribute(fs: seq<FlowState>, tickMs: int, bytesPerSecond: int): seq<FlowState>
  {
    if fs == [] then []
    else [Transmitted(fs[0], TickBytes(bytesPerSecond, tickMs) - Sum(Shares(fs[1..], tickMs)))]
         + AddShares(fs[1..], tickMs)
  }

  // ---------------------------------------------------------------------------------------
  // Phase 2: end flows older than a freshly sampled duration; report those at the active timeout

  /** The flows that go on, the reports emitted, and the draw cursor after the pass. */
  datatype Ended = Ended(kept: seq<FlowState>, reports: seq<FlowReport>, cursor: nat)

  /** The iterator loop over the flows, in list order: each flow samples one duration; an older
      flow is reported and removed, otherwise a timed-out flow is reported and kept. */
  function EndFlows(fs: seq<FlowState>, now: int, cfg: Config, draws: nat -> Long, cursor: nat): Ended
    decreases |fs|
  {
    if fs == [] then Ended([], [], cursor)
    else
      var p := EndFlows(fs[..|fs| - 1], now, cfg, draws, cursor);
      var f := fs[|fs| - 1];
      var d := Draw(cfg.durations, draws, p.cursor);
      if now - f.start > d.value then Ended(p.kept, p.reports + [ReportOf(f, now)], d.cursor)
      else if TimedOut(f, now, cfg.activeTimeout) then
        Ended(p.kept + [AfterReport(f, now)], p.reports + [ReportOf(f, now)], d.cursor)
      else Ended(p.kept + [f], p.reports, d.cursor)
  }

  /** A reference description of that pass that leaves the random draws out: walking the flows in
      order, each flow is either reported and dropped, or (when timed out) reported and kept in
      its reset form, or (when not timed out) kept as it is.  So every flow is accounted for once,
      none is reported twice, and the survivors keep their relative order. */
  predicate Accounted(kept: seq<FlowState>, reports: seq<FlowReport>, fs: seq<FlowState>, now: int, activeTimeout: int)
    decreases |fs|
  {
    if fs == [] then kept == [] && reports == []
    else
      var f := fs[|fs| - 1];
      var pre := fs[..|fs| - 1];
      (reports != [] && reports[|reports| - 1] == ReportOf(f, now)
       && Accounted(kept, reports[..|reports| - 1], pre, now, activeTimeout))
      || (TimedOut(f, now, activeTimeout) && kept != [] && reports != []
          && kept[|kept| - 1] == AfterReport(f, now) && reports[|reports| - 1] == ReportOf(f, now)
          && Accounted(kept[..|kept| - 1], reports[..|reports| - 1], pre, now, activeTimeout))
      || (!TimedOut(f, now, activeTimeout) && kept != [] && kept[|kept| - 1] == f
          && Accounted(kept[..|kept| - 1], reports, pre, now, activeTimeout))
  }

  // ---------------------------------------------------------------------------------------
  // Phase 3: spawn flows so that the rates add up to the target again

  /** The quotient a / b for a positive b, by repeated subtraction.  Like `Times`, it keeps
      nonlinear arithmetic out of proofs that only pass spawn plans along; `OverIsDiv` relates it
      to `/`. */
  function Over(a: int, b: int): int
    requires b > 0
    decreases if a < 0 then b - a else a
  {
    if a < 0 then Over(a + b, b) - 1 else if a >= b then Over(a - b, b) + 1 else 0
  }

  lemma {:induction false} OverIsDiv(a: int, b: int)
    requires b > 0
    ensures Over(a, b) == a / b
    decreases if a < 0 then b - a else a
  {
    if a < 0 {
      OverIsDiv(a + b, b);
      QuotientStep(a, b);
    } else if a >= b {
      OverIsDiv(a - b, b);
      QuotientStep(a - b, b);
    } else {
      DivModUnique(a, b, 0, a);
    }
  }

  /** Adding the divisor adds one to the quotient. */
  lemma QuotientStep(a: int, b: int)
    requires b > 0
    ensures (a + b) / b == a / b + 1
  {
    assert b * (a / b + 1) == b * (a / b) + b;
    DivModUnique(a + b, b, a / b + 1, a % b);
  }

  /** The reduce loop: while more than one flow is planned and each would get less than
      1000 bytes per second, plan one fewer.  The loop only divides by counts above one, where
      Java's truncating `/` and Dafny's agree for the positive deficits it is called with. */
  function ReducedCount(deficit: int, k: int): (r: int)
    ensures k >= 1 ==> 1 <= r <= k
    ensures k < 1 ==> r == k
    decreases k
  {
    if k > 1 && Over(deficit, k) < 1000 then ReducedCount(deficit, k - 1) else k
  }

  /** The spawn loop from one iteration on: every flow but the last gets `share`, each taking it
      off the remaining rate, and the last flow gets whatever remains. */
  function LoopRates(remaining: int, share: int, n: nat): (r: seq<int>)
    requires n >= 1
    ensures |r| == n
    decreases n
  {
    if n == 1 then [remaining] else [share] + LoopRates(remaining - share, share, n - 1)
  }

  /** The rates of k new flows: `deficit / k` each, and what remains for the last one. */
  function SpawnShares(deficit: int, k: int): seq<int>
    requires k >= 1
  {
    LoopRates(deficit, Over(deficit, k), k)
  }

  /** New flows, all started at now, with the given rates. */
  function NewFlows(now: int, rates: seq<int>): (r: seq<FlowState>)
    ensures |r| == |rates|
    decreases |rates|
  {
    if rates == [] then [] else NewFlows(now, rates[..|rates| - 1]) + [NewFlow(now, rates[|rates| - 1])]
  }

  /** The population after spawning, and the draw cursor; `thrown` marks the division by zero. */
  datatype Spawned = Spawned(flows: seq<FlowState>, cursor: nat, thrown: bool)

  /** The bounds of the spawn-count sampler `new IntegerZufall(random, 1, maxFlowCount - size)`. */
  function SpawnBounds(cfg: Config, size: int): Bounds
  {
    var hi := WrapInt(cfg.maxFlowCount - size);
    Bounds(1, hi - 1)
  }

  /** `spawnFlows(now)`: when the rates fall short of the target, draw a flow count, reduce it,
      and append that many new flows whose rates make up the deficit.  A count reduced to zero
      makes `deficit / k` throw; a negative count spawns nothing. */
  function SpawnStep(fs: seq<FlowState>, cfg: Config, now: int, draws: nat -> Long, cursor: nat): Spawned
  {
    var deficit := cfg.bytesPerSecond - RateSum(fs);
    if deficit <= 0 then Spawned(fs, cursor, false)
    else
      var d := Draw(SpawnBounds(cfg, |fs|), draws, cursor);
      SpawnWithCount(fs, now, deficit, ReducedCount(deficit, FromLong(d.value)), d.cursor)
  }

  /** The second half of `spawnFlows`, once the count k is drawn: `deficit / k` throws for a
      zero count, a negative count spawns nothing, and otherwise k new flows share the deficit. */
  function SpawnWithCount(fs: seq<FlowState>, now: int, deficit: int, k: int, cursor: nat): Spawned
  {
    if k == 0 then Spawned(fs, cursor, true)
    else if k < 0 then Spawned(fs, cursor, false)
    else Spawned(fs + NewFlows(now, SpawnShares(deficit, k)), cursor, false)
  }

  // ---------------------------------------------------------------------------------------
  // The operations

  /** The constructor: no flows yet, `lastTick` at the start instant, then one spawn pass. */
  function InitStep(cfg: Config, now: int, draws: nat -> Long, cursor: nat): Step
  {
    var s := SpawnStep([], cfg, now, draws, cursor);
    Step(GenState(s.flows, now, s.cursor), [], s.thrown)
  }

  /** `tick(now)`: split the budget, end or report flows, spawn, and move `lastTick` to now.
      The tick length has no guard: zero or negative lengths are used as they are. */
  function TickStep(cfg: Config, g: GenState, now: int, draws: nat -> Long): Step
  {
    var moved := Distribute(g.flows, now - g.lastTick, cfg.bytesPerSecond);
    var e := EndFlows(moved, now, cfg, draws, g.cursor);
    var s := SpawnStep(e.kept, cfg, now, draws, e.cursor);
    if s.thrown then Step(GenState(s.flows, g.lastTick, s.cursor), [], true)
    else Step(GenState(s.flows, now, s.cursor), e.reports, false)
  }

  /** `shutdown(now)`: one report per ongoing flow, in list order. */
  function ShutdownReports(fs: seq<FlowState>, now: int): (r: seq<FlowReport>)
    ensures |r| == |fs|
  {
    seq(|fs|, i requires 0 <= i < |fs| => ReportOf(fs[i], now))
  }

  /** The state after `shutdown(now)`: the list is cleared. */
  function ShutdownStep(g: GenState, now: int): Step
  {
    Step(GenState([], g.lastTick, g.cursor), ShutdownReports(g.flows, now), false)
  }

  /** Ticks at the given instants, one after the other, collecting their reports; a tick that
      throws ends the run. */
  function Run(cfg: Config, g: GenState, instants: seq<int>, draws: nat -> Long): Step
    decreases |instants|
  {
    if instants == [] then Step(g, [], false)
    else
      var s := TickStep(cfg, g, instants[0], draws);
      if s.thrown then Step(s.state, [], true)
      else
        var rest := Run(cfg, s.state, instants[1..], draws);
        Step(rest.state, s.reports + rest.reports, rest.thrown)
  }

  /** The sum of the rounded byte budgets of ticks at the given instants, from `last` on. */
  function Budgets(bytesPerSecond: int, last: int, instants: seq<int>): int
    decreases |instants|
  {
    if instants == [] then 0
    else TickBytes(bytesPerSecond, instants[0] - last) + Budgets(bytesPerSecond, instants[0], instants[1..])
  }

  /** The population invariant: the rates add up to the target, there are at most
      `maxFlowCount` flows, and every rate is positive. */
  predicate Balanced(cfg: Config, fs: seq<FlowState>)
  {
    RateSum(fs) == cfg.bytesPerSecond && |fs| <= cfg.maxFlowCount && RatesPositive(fs)
  }
}
