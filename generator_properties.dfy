/** What the flow population promises, proved about the functions of GeneratorSpec. */
module GeneratorProperties {
  import opened JavaNum
  import opened Zufall
  import opened IntegerZufall
  import opened Reports
  import opened Flows
  import opened GeneratorSpec

  // ---------------------------------------------------------------------------------------
  // Splitting the budget

  lemma {:induction false} PendingAddShares(fs: seq<FlowState>, tickMs: int)
    ensures Pending(AddShares(fs, tickMs)) == Pending(fs) + Sum(Shares(fs, tickMs))
    decreases |fs|
  {
    if fs != [] {
      var n := |fs| - 1;
      var added, shares := AddShares(fs, tickMs), Shares(fs, tickMs);
      assert added[..n] == AddShares(fs[..n], tickMs);
      assert shares[..n] == Shares(fs[..n], tickMs);
      PendingAddShares(fs[..n], tickMs);
    }
  }

  /** Each flow receives its own rounded share. */
  lemma {:induction false} AddSharesAt(fs: seq<FlowState>, tickMs: int)
    ensures forall i :: 0 <= i < |fs| ==> AddShares(fs, tickMs)[i] == Transmitted(fs[i], FlowShare(tickMs, fs[i].rate))
    decreases |fs|
  {
    if fs != [] {
      var n := |fs| - 1;
      assert AddShares(fs, tickMs)[..n] == AddShares(fs[..n], tickMs);
      AddSharesAt(fs[..n], tickMs);
    }
  }

  /** The rounded shares of a list are those of its head followed by those of its tail. */
  lemma {:induction false} SharesCons(fs: seq<FlowState>, tickMs: int)
    requires fs != []
    ensures Sum(Shares(fs, tickMs)) == FlowShare(tickMs, fs[0].rate) + Sum(Shares(fs[1..], tickMs))
    decreases |fs|
  {
    var n := |fs| - 1;
    if n == 0 {
      assert Shares(fs, tickMs) == Shares([], tickMs) + [FlowShare(tickMs, fs[0].rate)];
      assert fs[1..] == [];
      assert Sum([FlowShare(tickMs, fs[0].rate)]) == Sum([]) + FlowShare(tickMs, fs[0].rate);
    } else {
      SharesCons(fs[..n], tickMs);
      assert fs[..n][1..] == fs[1..][..n - 1];
      assert fs[..n][0] == fs[0];
      assert fs[1..][n - 1] == fs[n];
    }
  }

  /** One step of the transmit loop, which walks the flows from the newest to the oldest with
      `left` bytes of the budget not yet handed out, `handed` bytes (rounded) having gone to the
      flows above index i: a flow above index 0 receives its own rounded share, the flow at
      index 0 the rounded rest of the budget, and what is left rounds to what the tick still owes. */
  lemma TransmitStep(bytesPerSecond: int, tickMs: int, seconds: real, fs: seq<FlowState>, i: int,
                     rate: int, handed: int, left: real, amount: real)
    requires 0 <= i < |fs| && seconds == tickMs as real / 1000.0
    requires rate == fs[i].rate && handed == Sum(Shares(fs[i + 1..], tickMs))
    requires RoundHalfUp(left) == TickBytes(bytesPerSecond, tickMs) - handed
    requires amount == if i == 0 then left else seconds * rate as real
    ensures i > 0 ==> RoundHalfUp(amount) == FlowShare(tickMs, fs[i].rate)
                      && handed + RoundHalfUp(amount) == Sum(Shares(fs[i..], tickMs))
    ensures i == 0 ==> RoundHalfUp(amount) == TickBytes(bytesPerSecond, tickMs) - Sum(Shares(fs[1..], tickMs))
    ensures RoundHalfUp(left - RoundHalfUp(amount) as real)
            == TickBytes(bytesPerSecond, tickMs) - (handed + RoundHalfUp(amount))
  {
    var r := RoundHalfUp(amount);
    if i > 0 {
      ShareRounds(tickMs, seconds, rate);
      SharesStep(fs, i, tickMs);
    }
    RoundHalfUpShift(left, r);
  }

  /** `bytesPerSecond * seconds`, rounded half up, is the budget of a tick. */
  lemma BudgetRounds(bytesPerSecond: int, tickMs: int, seconds: real)
    requires seconds == tickMs as real / 1000.0
    ensures RoundHalfUp(bytesPerSecond as real * seconds) == TickBytes(bytesPerSecond, tickMs)
  {
    SharesAreRounded(bytesPerSecond, tickMs, 0, 0);
  }

  /** `seconds * rate`, rounded half up, is the flow's share of a tick. */
  lemma ShareRounds(tickMs: int, seconds: real, rate: int)
    requires seconds == tickMs as real / 1000.0
    ensures RoundHalfUp(seconds * rate as real) == FlowShare(tickMs, rate)
  {
    SharesAreRounded(0, tickMs, rate, 0);
  }

  /** The shares from index i on are the share at i followed by those above it. */
  lemma SharesStep(fs: seq<FlowState>, i: int, tickMs: int)
    requires 0 <= i < |fs|
    ensures Sum(Shares(fs[i..], tickMs)) == FlowShare(tickMs, fs[i].rate) + Sum(Shares(fs[i + 1..], tickMs))
  {
    SharesCons(fs[i..], tickMs);
    assert fs[i..][1..] == fs[i + 1..];
  }

  lemma {:induction false} RateSumPointwise(a: seq<FlowState>, b: seq<FlowState>)
    requires |a| == |b| && forall i :: 0 <= i < |a| ==> a[i].rate == b[i].rate
    ensures RateSum(a) == RateSum(b)
    decreases |a|
  {
    if a != [] {
      RateSumPointwise(a[..|a| - 1], b[..|b| - 1]);
    }
  }

  /** Per-flow rounding: the flows at indices 1 and up receive their own rounded share, the
      oldest receives the rounded rest of the budget, and nothing but the bytes changes. */
  lemma DistributeShares(fs: seq<FlowState>, tickMs: int, bytesPerSecond: int)
    ensures var r := Distribute(fs, tickMs, bytesPerSecond);
            |r| == |fs|
            && (forall i :: 0 <= i < |fs| ==>
                  r[i].start == fs[i].start && r[i].rate == fs[i].rate && r[i].reported == fs[i].reported)
            && (forall i :: 1 <= i < |fs| ==> r[i].bytes == fs[i].bytes + FlowShare(tickMs, fs[i].rate))
            && (fs != [] ==> r[0].bytes == fs[0].bytes + TickBytes(bytesPerSecond, tickMs)
                                           - Sum(Shares(fs[1..], tickMs)))
  {
    if fs != [] {
      AddSharesAt(fs[1..], tickMs);
    }
  }

  /** The flow at index j after the split: its own rounded share above index 0, the rounded
      rest of the budget at index 0. */
  lemma DistributeAt(fs: seq<FlowState>, tickMs: int, bytesPerSecond: int, j: int)
    requires 0 <= j < |fs|
    ensures |Distribute(fs, tickMs, bytesPerSecond)| == |fs|
    ensures Distribute(fs, tickMs, bytesPerSecond)[j]
            == Transmitted(fs[j], if j == 0 then TickBytes(bytesPerSecond, tickMs) - Sum(Shares(fs[1..], tickMs))
                                  else FlowShare(tickMs, fs[j].rate))
  {
    DistributeShares(fs, tickMs, bytesPerSecond);
  }

  /** The tick total: with ongoing flows, exactly the rounded budget is transmitted; with none,
      nothing. */
  lemma DistributeTotal(fs: seq<FlowState>, tickMs: int, bytesPerSecond: int)
    ensures Pending(Distribute(fs, tickMs, bytesPerSecond))
            == Pending(fs) + (if fs == [] then 0 else TickBytes(bytesPerSecond, tickMs))
  {
    if fs != [] {
      var t := Sum(Shares(fs[1..], tickMs));
      var first := Transmitted(fs[0], TickBytes(bytesPerSecond, tickMs) - t);
      PendingConcat([first], AddShares(fs[1..], tickMs));
      PendingAddShares(fs[1..], tickMs);
      assert fs == [fs[0]] + fs[1..];
      PendingConcat([fs[0]], fs[1..]);
      assert [first][..0] == [] && [fs[0]][..0] == [];
    }
  }

  /** The split changes no rate, so the rate sum and positivity carry over. */
  lemma DistributeKeepsRates(fs: seq<FlowState>, tickMs: int, bytesPerSecond: int)
    ensures var r := Distribute(fs, tickMs, bytesPerSecond);
            |r| == |fs| && RateSum(r) == RateSum(fs) && (RatesPositive(fs) ==> RatesPositive(r))
  {
    DistributeShares(fs, tickMs, bytesPerSecond);
    RateSumPointwise(Distribute(fs, tickMs, bytesPerSecond), fs);
  }

  // ---------------------------------------------------------------------------------------
  // Ending flows and the active timeout

  /** Each flow consumes exactly one duration sample, none when the duration range is empty. */
  lemma {:induction false} EndFlowsCursor(fs: seq<FlowState>, now: int, cfg: Config, draws: nat -> Long, cursor: nat)
    ensures EndFlows(fs, now, cfg, draws, cursor).cursor
            == (if cfg.durations.range == 0 then cursor else cursor + |fs|)
    decreases |fs|
  {
    if fs != [] {
      EndFlowsCursor(fs[..|fs| - 1], now, cfg, draws, cursor);
    }
  }

  /** The end/timeout pass meets its reference description. */
  lemma {:induction false} EndFlowsAccounted(fs: seq<FlowState>, now: int, cfg: Config, draws: nat -> Long, cursor: nat)
    ensures var e := EndFlows(fs, now, cfg, draws, cursor);
            Accounted(e.kept, e.reports, fs, now, cfg.activeTimeout)
    decreases |fs|
  {
    if fs != [] {
      var n := |fs| - 1;
      var p := EndFlows(fs[..n], now, cfg, draws, cursor);
      EndFlowsAccounted(fs[..n], now, cfg, draws, cursor);
      var f := fs[n];
      var rep := ReportOf(f, now);
      assert (p.reports + [rep])[..|p.reports|] == p.reports;
      assert (p.kept + [AfterReport(f, now)])[..|p.kept|] == p.kept;
      assert (p.kept + [f])[..|p.kept|] == p.kept;
    }
  }

  /** What the reference description guarantees: every byte of the flows is either still pending
      or reported; at most as many flows survive, and at most one report per flow; with all flows
      surviving the rate sum is unchanged; with positive rates it cannot grow. */
  lemma {:induction false} AccountedConserves(kept: seq<FlowState>, reports: seq<FlowReport>, fs: seq<FlowState>, now: int, activeTimeout: int)
    requires Accounted(kept, reports, fs, now, activeTimeout)
    ensures Pending(kept) + ReportedBytes(reports) == Pending(fs)
    ensures |kept| <= |fs| && |reports| <= |fs| && |fs| <= |kept| + |reports|
    ensures |kept| == |fs| ==> RateSum(kept) == RateSum(fs)
    ensures RatesPositive(fs) ==> RatesPositive(kept) && RateSum(kept) <= RateSum(fs)
    decreases |fs|
  {
    if fs != [] {
      var f := fs[|fs| - 1];
      var pre := fs[..|fs| - 1];
      if reports != [] && reports[|reports| - 1] == ReportOf(f, now)
         && Accounted(kept, reports[..|reports| - 1], pre, now, activeTimeout) {
        AccountedConserves(kept, reports[..|reports| - 1], pre, now, activeTimeout);
      } else if TimedOut(f, now, activeTimeout) && kept != [] && reports != []
                && kept[|kept| - 1] == AfterReport(f, now) && reports[|reports| - 1] == ReportOf(f, now)
                && Accounted(kept[..|kept| - 1], reports[..|reports| - 1], pre, now, activeTimeout) {
        AccountedConserves(kept[..|kept| - 1], reports[..|reports| - 1], pre, now, activeTimeout);
      } else {
        AccountedConserves(kept[..|kept| - 1], reports, pre, now, activeTimeout);
      }
    }
  }

  /** What one end/timeout pass guarantees: no byte is lost, no flow is added, the draws
      advance by one per flow, and the rate sum cannot grow (nor change if no flow ended). */
  lemma EndFlowsFacts(fs: seq<FlowState>, now: int, cfg: Config, draws: nat -> Long, cursor: nat)
    ensures var e := EndFlows(fs, now, cfg, draws, cursor);
            Pending(e.kept) + ReportedBytes(e.reports) == Pending(fs)
            && |e.kept| <= |fs| && |e.reports| <= |fs| && |fs| <= |e.kept| + |e.reports|
            && e.cursor == (if cfg.durations.range == 0 then cursor else cursor + |fs|)
            && (|e.kept| == |fs| ==> RateSum(e.kept) == RateSum(fs))
            && (RatesPositive(fs) ==> RatesPositive(e.kept) && RateSum(e.kept) <= RateSum(fs))
  {
    var e := EndFlows(fs, now, cfg, draws, cursor);
    EndFlowsAccounted(fs, now, cfg, draws, cursor);
    AccountedConserves(e.kept, e.reports, fs, now, cfg.activeTimeout);
    EndFlowsCursor(fs, now, cfg, draws, cursor);
  }

  // ---------------------------------------------------------------------------------------
  // Spawning

  /** The reduce loop stops at one flow or at the first count whose share reaches 1000 bytes
      per second, and every count it skipped had a share below that. */
  lemma {:induction false} ReducedCountStops(deficit: int, k: int)
    ensures var r := ReducedCount(deficit, k);
            (k >= 1 ==> r == 1 || deficit / r >= 1000)
            && forall j :: r < j <= k ==> deficit / j < 1000
    decreases k
  {
    if k > 1 {
      OverIsDiv(deficit, k);
    }
    if k > 1 && deficit / k < 1000 {
      ReducedCountStops(deficit, k - 1);
    }
  }

  /** The spawn loop hands out its remaining rate exactly: n - 1 flows get the share, the last
      one what is left after n - 1 shares were taken off. */
  lemma {:induction false} LoopRatesFacts(remaining: int, share: int, n: nat)
    requires n >= 1
    ensures var r := LoopRates(remaining, share, n);
            Sum(r) == remaining
            && (forall i :: 0 <= i < n - 1 ==> r[i] == share)
            && r[n - 1] == remaining - (n - 1) * share
    decreases n
  {
    if n > 1 {
      var rest := LoopRates(remaining - share, share, n - 1);
      LoopRatesFacts(remaining - share, share, n - 1);
      SumConcat([share], rest);
      assert [share][..0] == [];
      assert (n - 1) * share == share + (n - 2) * share;
    }
  }

  /** The spawn shares: k of them, the first k-1 equal to `deficit / k`, the last the remainder,
      adding up to exactly the deficit; after the reduce loop every share is positive. */
  lemma SpawnSharesSum(deficit: int, k: int)
    requires k >= 1
    ensures var s := SpawnShares(deficit, k);
            |s| == k && Sum(s) == deficit
            && (forall i :: 0 <= i < k - 1 ==> s[i] == deficit / k)
            && s[k - 1] == deficit - (k - 1) * (deficit / k)
            && (deficit > 0 && (k == 1 || deficit / k >= 1000) ==> forall i :: 0 <= i < k ==> s[i] >= 1)
  {
    var q := deficit / k;
    OverIsDiv(deficit, k);
    LoopRatesFacts(deficit, q, k);
    assert deficit == k * q + deficit % k;
    assert (k - 1) * q + q == k * q;
  }

  lemma {:induction false} NewFlowsSums(now: int, rates: seq<int>)
    ensures RateSum(NewFlows(now, rates)) == Sum(rates) && Pending(NewFlows(now, rates)) == 0
    ensures forall i :: 0 <= i < |rates| ==> NewFlows(now, rates)[i] == NewFlow(now, rates[i])
    decreases |rates|
  {
    if rates != [] {
      var n := |rates| - 1;
      assert NewFlows(now, rates)[..n] == NewFlows(now, rates[..n]);
      NewFlowsSums(now, rates[..n]);
    }
  }

  /** Appending new flows started at now keeps the given flows in front, adds their rates and
      no bytes, and the new ones start with nothing accumulated and no report. */
  lemma AppendNewFlows(fs: seq<FlowState>, now: int, rates: seq<int>)
    ensures var r := fs + NewFlows(now, rates);
            |r| == |fs| + |rates| && (forall i :: 0 <= i < |fs| ==> r[i] == fs[i])
            && Pending(r) == Pending(fs) && RateSum(r) == RateSum(fs) + Sum(rates)
            && (forall i :: |fs| <= i < |r| ==>
                  r[i].start == now && r[i].reported == now && r[i].bytes == 0 && r[i].rate == rates[i - |fs|])
            && (RatesPositive(fs) && (forall j :: 0 <= j < |rates| ==> rates[j] >= 1) ==> RatesPositive(r))
  {
    NewFlowsSums(now, rates);
    PendingConcat(fs, NewFlows(now, rates));
    RateSumConcat(fs, NewFlows(now, rates));
  }

  /** The drawn spawn count: exactly 1 without a draw when one slot is free; otherwise, for a
      draw other than `Long.MIN_VALUE`, between 1 and one less than the free slots. */
  lemma SpawnCount(cfg: Config, size: int, draws: nat -> Long, cursor: nat)
    requires 0 <= size < cfg.maxFlowCount
    ensures var d := Draw(SpawnBounds(cfg, size), draws, cursor);
            (cfg.maxFlowCount - size == 1 ==> FromLong(d.value) == 1 && d.cursor == cursor)
            && (cfg.maxFlowCount - size >= 2 && draws(cursor) != LONG_MIN ==>
                  1 <= FromLong(d.value) <= cfg.maxFlowCount - size - 1 && d.cursor == cursor + 1)
  {
    var hi := cfg.maxFlowCount - size;
    assert WrapInt(hi) == hi;
    if hi >= 2 && draws(cursor) != LONG_MIN {
      IntegerDrawInRange(1, hi, draws, cursor);
    }
  }

  /** A spawn pass with a positive deficit and a free slot, on any draw but `Long.MIN_VALUE`: it appends
      new flows started at now, with nothing accumulated, whose positive rates make the sum hit
      the target, without exceeding `maxFlowCount`. */
  lemma SpawnFills(fs: seq<FlowState>, cfg: Config, now: int, draws: nat -> Long, cursor: nat)
    requires RateSum(fs) < cfg.bytesPerSecond && |fs| < cfg.maxFlowCount && RatesPositive(fs)
    requires cfg.maxFlowCount - |fs| >= 2 ==> draws(cursor) != LONG_MIN
    ensures var s := SpawnStep(fs, cfg, now, draws, cursor);
            !s.thrown && cursor <= s.cursor <= cursor + 1
            && |fs| < |s.flows| <= cfg.maxFlowCount && (forall i :: 0 <= i < |fs| ==> s.flows[i] == fs[i])
            && RateSum(s.flows) == cfg.bytesPerSecond && RatesPositive(s.flows)
            && Pending(s.flows) == Pending(fs)
            && (forall i :: |fs| <= i < |s.flows| ==>
                  s.flows[i].start == now && s.flows[i].reported == now && s.flows[i].bytes == 0)
  {
    var deficit := cfg.bytesPerSecond - RateSum(fs);
    var d := Draw(SpawnBounds(cfg, |fs|), draws, cursor);
    SpawnCount(cfg, |fs|, draws, cursor);
    var k := ReducedCount(deficit, FromLong(d.value));
    var rates := SpawnShares(deficit, k);
    ReducedSharesPositive(deficit, FromLong(d.value), k, rates);
    assert SpawnStep(fs, cfg, now, draws, cursor) == Spawned(fs + NewFlows(now, rates), d.cursor, false);
    AppendNewFlows(fs, now, rates);
  }

  /** After the reduce loop, the spawn shares are positive and add up to the deficit. */
  lemma ReducedSharesPositive(deficit: int, drawn: int, k: int, rates: seq<int>)
    requires deficit > 0 && drawn >= 1 && k == ReducedCount(deficit, drawn) && k >= 1
    requires rates == SpawnShares(deficit, k)
    ensures 1 <= k <= drawn && |rates| == k && Sum(rates) == deficit
    ensures forall j :: 0 <= j < |rates| ==> rates[j] >= 1
  {
    ReducedCountStops(deficit, drawn);
    SpawnSharesSum(deficit, k);
  }

  // ---------------------------------------------------------------------------------------
  // The operations

  /** Construction with a positive target and room for a flow meets the target at once. */
  lemma InitBalanced(cfg: Config, now: int, draws: nat -> Long, cursor: nat)
    requires cfg.bytesPerSecond > 0 && cfg.maxFlowCount >= 1 && (cfg.maxFlowCount >= 2 ==> draws(cursor) != LONG_MIN)
    ensures var s := InitStep(cfg, now, draws, cursor);
            !s.thrown && Balanced(cfg, s.state.flows) && Pending(s.state.flows) == 0
            && s.state.lastTick == now && s.reports == []
            && forall i :: 0 <= i < |s.state.flows| ==> s.state.flows[i].start == now
  {
    SpawnFills([], cfg, now, draws, cursor);
  }

  /** A target of zero or less never spawns: the population stays empty and silent. */
  lemma ZeroTargetStaysEmpty(cfg: Config, g: GenState, now: int, draws: nat -> Long)
    requires cfg.bytesPerSecond <= 0 && g.flows == []
    ensures InitStep(cfg, now, draws, g.cursor) == Step(GenState([], now, g.cursor), [], false)
    ensures TickStep(cfg, g, now, draws) == Step(GenState([], now, g.cursor), [], false)
  {
  }

  /** With `maxFlowCount` zero the spawn-count range is -1, which always yields 1: construction
      still spawns one flow, exceeding the limit, whatever the draw. */
  lemma ZeroLimitStillSpawns(cfg: Config, now: int, draws: nat -> Long, cursor: nat)
    requires cfg.bytesPerSecond > 0 && cfg.maxFlowCount == 0
    ensures |InitStep(cfg, now, draws, cursor).state.flows| == 1
  {
    var b := SpawnBounds(cfg, 0);
    assert WrapInt(0) == 0;
    UnitRangeYieldsStart(1, -1, draws(cursor));
    SpawnSharesSum(cfg.bytesPerSecond, 1);
  }

  /** Whatever the draw, a spawn pass that does not throw keeps the flows it was given, in
      order, and appends only flows started at now with nothing accumulated; it consumes at
      most one draw. */
  lemma SpawnKeeps(fs: seq<FlowState>, cfg: Config, now: int, draws: nat -> Long, cursor: nat)
    ensures var s := SpawnStep(fs, cfg, now, draws, cursor);
            cursor <= s.cursor <= cursor + 1
            && (!s.thrown ==>
                  |fs| <= |s.flows| && (forall i :: 0 <= i < |fs| ==> s.flows[i] == fs[i]) && Pending(s.flows) == Pending(fs)
                  && forall i :: |fs| <= i < |s.flows| ==>
                       s.flows[i].start == now && s.flows[i].reported == now && s.flows[i].bytes == 0)
  {
    var deficit := cfg.bytesPerSecond - RateSum(fs);
    if deficit > 0 {
      var d := Draw(SpawnBounds(cfg, |fs|), draws, cursor);
      var k := ReducedCount(deficit, FromLong(d.value));
      if k > 0 {
        AppendNewFlows(fs, now, SpawnShares(deficit, k));
      }
    }
  }

  /** A spawn pass depends on the draw it consumes and on no other. */
  lemma SpawnUsesOnlyItsDraws(fs: seq<FlowState>, cfg: Config, now: int, d1: nat -> Long, d2: nat -> Long, cursor: nat)
    requires forall i :: cursor <= i < SpawnStep(fs, cfg, now, d1, cursor).cursor ==> d1(i) == d2(i)
    ensures SpawnStep(fs, cfg, now, d1, cursor) == SpawnStep(fs, cfg, now, d2, cursor)
  {
    var deficit := cfg.bytesPerSecond - RateSum(fs);
    if deficit > 0 && SpawnBounds(cfg, |fs|).range != 0 {
      assert d1(cursor) == d2(cursor);
    }
  }

  /** A tick is its three stages, one after the other. */
  lemma TickStages(cfg: Config, g: GenState, now: int, tickMs: int, draws: nat -> Long, moved: seq<FlowState>, e: Ended,
                   sp: Spawned)
    requires tickMs == now - g.lastTick && moved == Distribute(g.flows, tickMs, cfg.bytesPerSecond)
    requires e == EndFlows(moved, now, cfg, draws, g.cursor)
    requires sp == SpawnStep(e.kept, cfg, now, draws, e.cursor)
    ensures TickStep(cfg, g, now, draws)
            == if sp.thrown then Step(GenState(sp.flows, g.lastTick, sp.cursor), [], true)
               else Step(GenState(sp.flows, now, sp.cursor), e.reports, false)
  {
  }

  /** Bytes are conserved by a tick: what is pending afterwards plus what was reported equals
      what was pending before plus what the tick transmitted. */
  lemma TickConserves(cfg: Config, g: GenState, now: int, draws: nat -> Long, r: Step)
    requires r == TickStep(cfg, g, now, draws) && !r.thrown
    ensures Pending(r.state.flows) + ReportedBytes(r.reports)
            == Pending(g.flows) + (if g.flows == [] then 0 else TickBytes(cfg.bytesPerSecond, now - g.lastTick))
  {
    var moved := Distribute(g.flows, now - g.lastTick, cfg.bytesPerSecond);
    var e := EndFlows(moved, now, cfg, draws, g.cursor);
    var s := SpawnStep(e.kept, cfg, now, draws, e.cursor);
    TickStages(cfg, g, now, now - g.lastTick, draws, moved, e, s);
    assert r.state.flows == s.flows && r.reports == e.reports;
    TickParts(cfg, g, now, draws, moved, e, s);
  }

  /** The three phases of a tick, each of them conserving bytes, put together. */
  lemma TickParts(cfg: Config, g: GenState, now: int, draws: nat -> Long, moved: seq<FlowState>, e: Ended, s: Spawned)
    requires moved == Distribute(g.flows, now - g.lastTick, cfg.bytesPerSecond)
    requires e == EndFlows(moved, now, cfg, draws, g.cursor)
    requires s == SpawnStep(e.kept, cfg, now, draws, e.cursor)
    requires !s.thrown
    ensures Pending(s.flows) + ReportedBytes(e.reports)
            == Pending(g.flows) + (if g.flows == [] then 0 else TickBytes(cfg.bytesPerSecond, now - g.lastTick))
  {
    var budget := if g.flows == [] then 0 else TickBytes(cfg.bytesPerSecond, now - g.lastTick);
    DistributeTotal(g.flows, now - g.lastTick, cfg.bytesPerSecond);
    assert Pending(moved) == Pending(g.flows) + budget;
    EndFlowsConserves(moved, now, cfg, draws, g.cursor, e);
    SpawnKeepsPending(e.kept, cfg, now, draws, e.cursor, s);
  }

  /** The end/timeout pass conserves bytes. */
  lemma EndFlowsConserves(fs: seq<FlowState>, now: int, cfg: Config, draws: nat -> Long, cursor: nat, e: Ended)
    requires e == EndFlows(fs, now, cfg, draws, cursor)
    ensures Pending(e.kept) + ReportedBytes(e.reports) == Pending(fs)
  {
    EndFlowsFacts(fs, now, cfg, draws, cursor);
  }

  /** A spawn pass that does not throw adds no pending bytes. */
  lemma SpawnKeepsPending(fs: seq<FlowState>, cfg: Config, now: int, draws: nat -> Long, cursor: nat, s: Spawned)
    requires s == SpawnStep(fs, cfg, now, draws, cursor) && !s.thrown
    ensures Pending(s.flows) == Pending(fs)
  {
    SpawnKeeps(fs, cfg, now, draws, cursor);
  }

  /** The order within a tick: reports are taken after this tick's bytes were transmitted, the
      survivors come first and in order, the flows spawned in this tick follow with nothing
      accumulated and no report, and `lastTick` becomes now. */
  lemma TickOrder(cfg: Config, g: GenState, now: int, draws: nat -> Long, moved: seq<FlowState>, e: Ended, s: Step)
    requires moved == Distribute(g.flows, now - g.lastTick, cfg.bytesPerSecond)
    requires e == EndFlows(moved, now, cfg, draws, g.cursor)
    requires s == TickStep(cfg, g, now, draws) && !s.thrown
    ensures Accounted(e.kept, s.reports, moved, now, cfg.activeTimeout)
    ensures |e.kept| <= |s.state.flows| && (forall i :: 0 <= i < |e.kept| ==> s.state.flows[i] == e.kept[i])
    ensures forall i :: |e.kept| <= i < |s.state.flows| ==>
              s.state.flows[i].start == now && s.state.flows[i].reported == now && s.state.flows[i].bytes == 0
    ensures s.state.lastTick == now
  {
    var sp := SpawnStep(e.kept, cfg, now, draws, e.cursor);
    TickStages(cfg, g, now, now - g.lastTick, draws, moved, e, sp);
    assert s.state.flows == sp.flows && s.reports == e.reports && s.state.lastTick == now;
    EndFlowsAccounted(moved, now, cfg, draws, g.cursor);
    SpawnKeeps(e.kept, cfg, now, draws, e.cursor);
  }

  /** The population invariant survives every tick when no draw is `Long.MIN_VALUE`: the rates still add up
      to the target, the count stays within `maxFlowCount`, and the tick does not throw.  A
      positive deficit arises only when the tick removed a flow. */
  lemma TickBalanced(cfg: Config, g: GenState, now: int, draws: nat -> Long)
    requires Balanced(cfg, g.flows) && NoMinValueDraws(draws)
    ensures var s := TickStep(cfg, g, now, draws);
            !s.thrown && Balanced(cfg, s.state.flows) && s.state.lastTick == now
  {
    var tickMs := now - g.lastTick;
    var moved := Distribute(g.flows, tickMs, cfg.bytesPerSecond);
    DistributeKeepsRates(g.flows, tickMs, cfg.bytesPerSecond);
    var e := EndFlows(moved, now, cfg, draws, g.cursor);
    EndFlowsFacts(moved, now, cfg, draws, g.cursor);
    var s := SpawnStep(e.kept, cfg, now, draws, e.cursor);
    TickStages(cfg, g, now, tickMs, draws, moved, e, s);
    assert RateSum(moved) == cfg.bytesPerSecond && |moved| == |g.flows| && RatesPositive(moved);
    assert RatesPositive(e.kept) && RateSum(e.kept) <= cfg.bytesPerSecond && |e.kept| <= |moved|;
    if RateSum(e.kept) < cfg.bytesPerSecond {
      assert |e.kept| < |moved|;
      assert draws(e.cursor) != LONG_MIN;
      SpawnFills(e.kept, cfg, now, draws, e.cursor);
    } else {
      assert s == Spawned(e.kept, e.cursor, false);
    }
  }

  /** A run that starts with a tick that does not throw is that tick followed by the rest of the run. */
  lemma RunFirst(cfg: Config, g: GenState, instants: seq<int>, draws: nat -> Long, s: Step, rest: Step)
    requires instants != [] && s == TickStep(cfg, g, instants[0], draws) && !s.thrown
    requires rest == Run(cfg, s.state, instants[1..], draws)
    ensures Run(cfg, g, instants, draws) == Step(rest.state, s.reports + rest.reports, rest.thrown)
  {
  }

  /** The budgets of a run: the first tick's, then those of the ticks after it. */
  lemma BudgetsFirst(bytesPerSecond: int, last: int, instants: seq<int>, next: int)
    requires instants != [] && next == instants[0]
    ensures Budgets(bytesPerSecond, last, instants)
            == TickBytes(bytesPerSecond, next - last) + Budgets(bytesPerSecond, next, instants[1..])
  {
  }

  /** A run of ticks keeps the invariant and never throws. */
  lemma {:induction false} RunBalanced(cfg: Config, g: GenState, instants: seq<int>, draws: nat -> Long)
    requires Balanced(cfg, g.flows) && cfg.bytesPerSecond > 0 && NoMinValueDraws(draws)
    ensures var r := Run(cfg, g, instants, draws);
            !r.thrown && Balanced(cfg, r.state.flows)
    decreases |instants|
  {
    if instants != [] {
      var s := TickStep(cfg, g, instants[0], draws);
      TickBalanced(cfg, g, instants[0], draws);
      RunBalanced(cfg, s.state, instants[1..], draws);
      RunFirst(cfg, g, instants, draws, s, Run(cfg, s.state, instants[1..], draws));
    }
  }

  /** The bytes handed out between state `g` and step `s`: what `s` reported plus what became
      pending. */
  function Delivered(g: GenState, s: Step): int
  {
    ReportedBytes(s.reports) + Pending(s.state.flows) - Pending(g.flows)
  }

  /** A run of ticks delivers, into reports or still pending bytes, exactly the sum of the
      rounded tick budgets. */
  lemma {:induction false} RunConserves(cfg: Config, g: GenState, instants: seq<int>, draws: nat -> Long)
    requires Balanced(cfg, g.flows) && cfg.bytesPerSecond > 0 && NoMinValueDraws(draws)
    ensures Delivered(g, Run(cfg, g, instants, draws)) == Budgets(cfg.bytesPerSecond, g.lastTick, instants)
    decreases |instants|
  {
    if instants != [] {
      var now, later := instants[0], instants[1..];
      var s := TickStep(cfg, g, now, draws);
      TickKeepsBalance(cfg, g, now, draws, s);
      RunConserves(cfg, s.state, later, draws);
      var rest := Run(cfg, s.state, later, draws);
      RunFirst(cfg, g, instants, draws, s, rest);
      ConservesThenRun(cfg, g, instants, now, later, s, rest, Run(cfg, g, instants, draws));
    }
  }

  lemma TickKeepsBalance(cfg: Config, g: GenState, now: int, draws: nat -> Long, s: Step)
    requires Balanced(cfg, g.flows) && cfg.bytesPerSecond > 0 && NoMinValueDraws(draws)
    requires s == TickStep(cfg, g, now, draws)
    ensures !s.thrown && Balanced(cfg, s.state.flows) && s.state.lastTick == now
    ensures Delivered(g, s) == TickBytes(cfg.bytesPerSecond, now - g.lastTick)
  {
    TickBalanced(cfg, g, now, draws);
    assert g.flows != [];
    TickConserves(cfg, g, now, draws, s);
  }

  /** The bookkeeping of a run: the first tick's bytes and the rest's add up. */
  lemma ConservesThenRun(cfg: Config, g: GenState, instants: seq<int>, now: int, later: seq<int>, s: Step, rest: Step, r: Step)
    requires instants != [] && now == instants[0] && later == instants[1..] && s.state.lastTick == now
    requires r == Step(rest.state, s.reports + rest.reports, rest.thrown)
    requires Delivered(g, s) == TickBytes(cfg.bytesPerSecond, now - g.lastTick)
    requires Delivered(s.state, rest) == Budgets(cfg.bytesPerSecond, s.state.lastTick, later)
    ensures Delivered(g, r) == Budgets(cfg.bytesPerSecond, g.lastTick, instants)
  {
    ReportedBytesConcat(s.reports, rest.reports);
    BudgetsFirst(cfg.bytesPerSecond, g.lastTick, instants, s.state.lastTick);
  }

  // ---------------------------------------------------------------------------------------
  // Shutdown and whole simulations

  lemma {:induction false} ShutdownReportsBytes(fs: seq<FlowState>, now: int)
    ensures ReportedBytes(ShutdownReports(fs, now)) == Pending(fs)
    decreases |fs|
  {
    if fs != [] {
      var n := |fs| - 1;
      assert ShutdownReports(fs, now)[..n] == ShutdownReports(fs[..n], now);
      ShutdownReportsBytes(fs[..n], now);
    }
  }

  /** Shutdown reports every ongoing flow once, in list order, each ending now, and hands out
      all pending bytes; afterwards there are no flows. */
  lemma ShutdownDrains(g: GenState, now: int)
    ensures var s := ShutdownStep(g, now);
            s.state.flows == [] && |s.reports| == |g.flows|
            && (forall i :: 0 <= i < |g.flows| ==>
                  s.reports[i] == FlowReport(g.flows[i].reported, now, g.flows[i].bytes))
            && ReportedBytes(s.reports) == Pending(g.flows)
  {
    ShutdownReportsBytes(g.flows, now);
  }

  /** A whole simulation of one generator: build at `start`, tick at each instant, shut down at
      `stop`; all reports together, or those up to the first throw. */
  function Simulate(cfg: Config, start: int, instants: seq<int>, stop: int, draws: nat -> Long): (r: Step)
    ensures !r.thrown ==> r.state.flows == []
  {
    var init := InitStep(cfg, start, draws, 0);
    if init.thrown then init
    else
      var r := Run(cfg, init.state, instants, draws);
      if r.thrown then r
      else
        var d := ShutdownStep(r.state, stop);
        Step(d.state, r.reports + d.reports, false)
  }

  /** Every transmitted byte is eventually reported: a simulation's reports carry exactly the
      sum of the rounded budgets of its ticks. */
  lemma SimulationDeliversBudgets(cfg: Config, start: int, instants: seq<int>, stop: int, draws: nat -> Long)
    requires cfg.bytesPerSecond > 0 && cfg.maxFlowCount >= 1 && NoMinValueDraws(draws)
    ensures var s := Simulate(cfg, start, instants, stop, draws);
            !s.thrown && s.state.flows == []
            && ReportedBytes(s.reports) == Budgets(cfg.bytesPerSecond, start, instants)
  {
    var init := InitStep(cfg, start, draws, 0);
    InitBalanced(cfg, start, draws, 0);
    RunBalanced(cfg, init.state, instants, draws);
    RunConserves(cfg, init.state, instants, draws);
    var r := Run(cfg, init.state, instants, draws);
    ShutdownReportsBytes(r.state.flows, stop);
    ReportedBytesConcat(r.reports, ShutdownReports(r.state.flows, stop));
  }

  /** When the budget of a tick is a whole number of bytes, rounding leaves it alone. */
  lemma WholeBudget(bytesPerSecond: int, tickMs: int)
    requires (bytesPerSecond * tickMs) % 1000 == 0
    ensures TickBytes(bytesPerSecond, tickMs) * 1000 == bytesPerSecond * tickMs
  {
    var x := bytesPerSecond * tickMs;
    TimesIsMul(bytesPerSecond, tickMs);
    assert x + 500 == 1000 * (x / 1000) + 500;
    DivModUnique(x + 500, 1000, x / 1000, 500);
  }

  /** Evenly spaced instants `start + tickMs`, `start + 2 * tickMs`, ... */
  function EvenTicks(start: int, tickMs: int, n: nat): (r: seq<int>)
    ensures |r| == n
  {
    seq(n, i requires 0 <= i < n => start + (i + 1) * tickMs)
  }

  /** Evenly spaced ticks all have the budget of one tick. */
  lemma {:induction false} EvenBudgetsCount(bytesPerSecond: int, start: int, tickMs: int, n: nat)
    ensures Budgets(bytesPerSecond, start, EvenTicks(start, tickMs, n)) == n * TickBytes(bytesPerSecond, tickMs)
    decreases n
  {
    if n > 0 {
      var ts, w, next := EvenTicks(start, tickMs, n), TickBytes(bytesPerSecond, tickMs), start + tickMs;
      assert ts[0] == next && next - start == tickMs;
      assert ts[1..] == EvenTicks(next, tickMs, n - 1);
      BudgetsFirst(bytesPerSecond, start, ts, next);
      EvenBudgetsCount(bytesPerSecond, next, tickMs, n - 1);
      assert n * w == w + (n - 1) * w;
    }
  }

  lemma EvenBudgets(bytesPerSecond: int, start: int, tickMs: int, n: nat)
    requires (bytesPerSecond * tickMs) % 1000 == 0
    ensures Budgets(bytesPerSecond, start, EvenTicks(start, tickMs, n)) * 1000 == bytesPerSecond * (n * tickMs)
  {
    var w := TickBytes(bytesPerSecond, tickMs);
    WholeBudget(bytesPerSecond, tickMs);
    EvenBudgetsCount(bytesPerSecond, start, tickMs, n);
    ScaleWhole(n, w, bytesPerSecond, tickMs);
  }

  /** n ticks of w bytes each, w being a whole thousandth of the rate times the tick. */
  lemma ScaleWhole(n: int, w: int, bytesPerSecond: int, tickMs: int)
    requires w * 1000 == bytesPerSecond * tickMs
    ensures (n * w) * 1000 == bytesPerSecond * (n * tickMs)
  {
    assert (n * w) * 1000 == n * (w * 1000);
    assert n * (bytesPerSecond * tickMs) == bytesPerSecond * (n * tickMs);
  }

  /** The long-run rate: ticking evenly n times and shutting down later, with a tick whose budget
      is a whole number of bytes, the reports carry exactly the target rate times the ticked time,
      for any `maxFlowCount` of at least one. */
  lemma EvenTicksDeliverTargetRate(cfg: Config, start: int, tickMs: int, n: nat, stop: int, draws: nat -> Long)
    requires cfg.bytesPerSecond > 0 && cfg.maxFlowCount >= 1 && NoMinValueDraws(draws)
    requires (cfg.bytesPerSecond * tickMs) % 1000 == 0
    ensures ReportedBytes(Simulate(cfg, start, EvenTicks(start, tickMs, n), stop, draws).reports) * 1000
            == cfg.bytesPerSecond * (n * tickMs)
  {
    var ts := EvenTicks(start, tickMs, n);
    var total := ReportedBytes(Simulate(cfg, start, ts, stop, draws).reports);
    SimulationDeliversBudgets(cfg, start, ts, stop, draws);
    assert total == Budgets(cfg.bytesPerSecond, start, ts);
    EvenBudgets(cfg.bytesPerSecond, start, tickMs, n);
  }

  // ---------------------------------------------------------------------------------------
  // Reproducibility: the same draws give the same reports

  lemma {:induction false} EndFlowsUsesOnlyItsDraws(fs: seq<FlowState>, now: int, cfg: Config, d1: nat -> Long, d2: nat -> Long, cursor: nat)
    requires forall i :: cursor <= i < EndFlows(fs, now, cfg, d1, cursor).cursor ==> d1(i) == d2(i)
    ensures EndFlows(fs, now, cfg, d1, cursor) == EndFlows(fs, now, cfg, d2, cursor)
    decreases |fs|
  {
    if fs != [] {
      var n := |fs| - 1;
      EndFlowsCursor(fs, now, cfg, d1, cursor);
      EndFlowsCursor(fs[..n], now, cfg, d1, cursor);
      EndFlowsUsesOnlyItsDraws(fs[..n], now, cfg, d1, d2, cursor);
    }
  }

  /** A tick's result depends on the draws it consumes and on nothing else of the random source. */
  lemma TickUsesOnlyItsDraws(cfg: Config, g: GenState, now: int, d1: nat -> Long, d2: nat -> Long)
    requires forall i :: g.cursor <= i < TickStep(cfg, g, now, d1).state.cursor ==> d1(i) == d2(i)
    ensures TickStep(cfg, g, now, d1) == TickStep(cfg, g, now, d2)
    ensures TickStep(cfg, g, now, d1).state.cursor >= g.cursor
  {
    var tickMs := now - g.lastTick;
    var moved := Distribute(g.flows, tickMs, cfg.bytesPerSecond);
    var e := EndFlows(moved, now, cfg, d1, g.cursor);
    var s := SpawnStep(e.kept, cfg, now, d1, e.cursor);
    TickStages(cfg, g, now, tickMs, d1, moved, e, s);
    EndFlowsCursor(moved, now, cfg, d1, g.cursor);
    SpawnKeeps(e.kept, cfg, now, d1, e.cursor);
    assert g.cursor <= e.cursor <= s.cursor == TickStep(cfg, g, now, d1).state.cursor;
    EndFlowsUsesOnlyItsDraws(moved, now, cfg, d1, d2, g.cursor);
    SpawnUsesOnlyItsDraws(e.kept, cfg, now, d1, d2, e.cursor);
    TickStages(cfg, g, now, tickMs, d2, moved, e, s);
  }

  /** A tick never moves the draw cursor back. */
  lemma TickCursorGrows(cfg: Config, g: GenState, now: int, draws: nat -> Long, s: Step)
    requires s == TickStep(cfg, g, now, draws)
    ensures s.state.cursor >= g.cursor
  {
    var tickMs := now - g.lastTick;
    var moved := Distribute(g.flows, tickMs, cfg.bytesPerSecond);
    var e := EndFlows(moved, now, cfg, draws, g.cursor);
    var sp := SpawnStep(e.kept, cfg, now, draws, e.cursor);
    TickStages(cfg, g, now, tickMs, draws, moved, e, sp);
    EndFlowsCursor(moved, now, cfg, draws, g.cursor);
    SpawnKeeps(e.kept, cfg, now, draws, e.cursor);
  }

  /** A run whose first tick throws stops there, with no reports. */
  lemma RunStops(cfg: Config, g: GenState, instants: seq<int>, draws: nat -> Long, s: Step)
    requires instants != [] && s == TickStep(cfg, g, instants[0], draws) && s.thrown
    ensures Run(cfg, g, instants, draws) == Step(s.state, [], true)
  {
  }

  /** Two generators in the same state fed the same draws return the same reports, tick after
      tick: the same seed yields the same run. */
  lemma {:induction false} RunUsesOnlyItsDraws(cfg: Config, g: GenState, instants: seq<int>, d1: nat -> Long, d2: nat -> Long)
    requires forall i :: g.cursor <= i < Run(cfg, g, instants, d1).state.cursor ==> d1(i) == d2(i)
    ensures Run(cfg, g, instants, d1) == Run(cfg, g, instants, d2)
    ensures Run(cfg, g, instants, d1).state.cursor >= g.cursor
    decreases |instants|
  {
    if instants != [] {
      var now, later := instants[0], instants[1..];
      var s := TickStep(cfg, g, now, d1);
      TickCursorGrows(cfg, g, now, d1, s);
      if s.thrown {
        RunStops(cfg, g, instants, d1, s);
        TickUsesOnlyItsDraws(cfg, g, now, d1, d2);
        RunStops(cfg, g, instants, d2, s);
      } else {
        var rest := Run(cfg, s.state, later, d1);
        RunFirst(cfg, g, instants, d1, s, rest);
        RunCursorGrows(cfg, s.state, later, d1);
        TickUsesOnlyItsDraws(cfg, g, now, d1, d2);
        RunUsesOnlyItsDraws(cfg, s.state, later, d1, d2);
        RunFirst(cfg, g, instants, d2, s, rest);
      }
    }
  }

  lemma {:induction false} RunCursorGrows(cfg: Config, g: GenState, instants: seq<int>, draws: nat -> Long)
    ensures Run(cfg, g, instants, draws).state.cursor >= g.cursor
    decreases |instants|
  {
    if instants != [] {
      var now, later := instants[0], instants[1..];
      var s := TickStep(cfg, g, now, draws);
      TickCursorGrows(cfg, g, now, draws, s);
      if s.thrown {
        RunStops(cfg, g, instants, draws, s);
      } else {
        RunCursorGrows(cfg, s.state, later, draws);
        RunFirst(cfg, g, instants, draws, s, Run(cfg, s.state, later, draws));
      }
    }
  }
}
