/**
 * `FlowGenerator`: the flow population of one exporter, as a class whose list of `Flow`
 * objects and `lastTick` field its methods update in place.  Each method is proved to follow
 * the functions of GeneratorSpec, whose properties GeneratorProperties proves.
 */
module Generator {
  import opened JavaNum
  import opened Zufall
  import opened IntegerZufall
  import opened Reports
  import opened Flows
  import opened GeneratorSpec
  import opened GeneratorProperties

  /** The states of the given flows, in list order. */
  ghost function States(fs: seq<Flow>): (r: seq<FlowState>)
    reads fs
  {
    seq(|fs|, i reads fs requires 0 <= i < |fs| => fs[i].State())
  }

  /** No flow object occurs twice in the list. */
  ghost predicate Distinct(fs: seq<Flow>)
  {
    forall i, j :: 0 <= i < j < |fs| ==> fs[i] != fs[j]
  }

  /** A sequence that agrees with `old` everywhere but at i, where it holds v, is `old[i := v]`. */
  lemma UpdatedAt(now: seq<FlowState>, old0: seq<FlowState>, i: int, v: FlowState)
    requires 0 <= i < |now| == |old0| && now[i] == v
    requires forall j :: 0 <= j < |now| && j != i ==> now[j] == old0[j]
    ensures now == old0[i := v]
  {
  }

  /** Appending a flow appends its state. */
  lemma StatesAppend(fs: seq<Flow>, f: Flow)
    ensures States(fs + [f]) == States(fs) + [f.State()]
  {
  }

  /** New flows from a list of rates that starts with r: the flow at r first. */
  lemma {:induction false} NewFlowsCons(now: int, r: int, rest: seq<int>)
    ensures NewFlows(now, [r] + rest) == [NewFlow(now, r)] + NewFlows(now, rest)
    decreases |rest|
  {
    if rest != [] {
      var n := |rest| - 1;
      assert ([r] + rest)[..n + 1] == [r] + rest[..n];
      NewFlowsCons(now, r, rest[..n]);
    }
  }

  /** One iteration of the spawn loop: the flow with the share joins the list, and the flows
      still to come are those of the deficit less the share. */
  lemma SpawnLoopStep(cur: seq<FlowState>, now: int, remaining: int, share: int, n: nat, target: seq<FlowState>)
    requires n >= 2 && cur + NewFlows(now, LoopRates(remaining, share, n)) == target
    ensures (cur + [NewFlow(now, share)]) + NewFlows(now, LoopRates(remaining - share, share, n - 1)) == target
  {
    NewFlowsCons(now, share, LoopRates(remaining - share, share, n - 1));
  }

  /** The portion of each flow in a tick, index by index: its own rounded share, and for the
      oldest what is left of the rounded budget. */
  ghost predicate Portions(fs: seq<FlowState>, target: seq<FlowState>, tickMs: int, bytesPerSecond: int)
  {
    |target| == |fs|
    && (forall j :: 0 < j < |fs| ==> target[j] == Transmitted(fs[j], FlowShare(tickMs, fs[j].rate)))
    && (fs != [] ==> target[0] == Transmitted(fs[0], TickBytes(bytesPerSecond, tickMs) - Sum(Shares(fs[1..], tickMs))))
  }

  /** `Distribute` hands out exactly these portions. */
  lemma DistributeEach(fs: seq<FlowState>, tickMs: int, bytesPerSecond: int)
    ensures Portions(fs, Distribute(fs, tickMs, bytesPerSecond), tickMs, bytesPerSecond)
  {
    DistributeKeepsRates(fs, tickMs, bytesPerSecond);
    forall j | 0 <= j < |fs| {
      DistributeAt(fs, tickMs, bytesPerSecond, j);
    }
  }

  /** The flows above index i hold their target state, the others their original one. */
  ghost predicate TransmittedAbove(cur: seq<FlowState>, fs: seq<FlowState>, target: seq<FlowState>, i: int)
  {
    |cur| == |fs| == |target| && forall j :: 0 <= j < |fs| ==> cur[j] == if j <= i then fs[j] else target[j]
  }

  /** The amount handed to the flow at i is its portion. */
  lemma PortionAt(fs: seq<FlowState>, target: seq<FlowState>, tickMs: int, bytesPerSecond: int, i: int, transmit: int)
    requires 0 <= i < |fs| && Portions(fs, target, tickMs, bytesPerSecond)
    requires i > 0 ==> transmit == FlowShare(tickMs, fs[i].rate)
    requires i == 0 ==> transmit == TickBytes(bytesPerSecond, tickMs) - Sum(Shares(fs[1..], tickMs))
    ensures target[i] == Transmitted(fs[i], transmit)
  {
  }

  /** One step of the transmit loop: the flow at i takes its target state. */
  lemma TransmittedStep(cur: seq<FlowState>, fs: seq<FlowState>, target: seq<FlowState>, i: int)
    requires 0 <= i < |cur| && TransmittedAbove(cur, fs, target, i)
    ensures TransmittedAbove(cur[i := target[i]], fs, target, i - 1)
  {
  }

  /** One more flow through the iterator loop. */
  lemma EndFlowsStep(fs: seq<FlowState>, at: int, next: int, now: int, cfg: Config, draws: nat -> Long, cursor: nat)
    requires 0 <= at < |fs| && next == at + 1
    ensures var p := EndFlows(fs[..at], now, cfg, draws, cursor);
            var f := fs[at];
            var d := Draw(cfg.durations, draws, p.cursor);
            EndFlows(fs[..next], now, cfg, draws, cursor)
            == if now - f.start > d.value then Ended(p.kept, p.reports + [ReportOf(f, now)], d.cursor)
               else if TimedOut(f, now, cfg.activeTimeout) then
                 Ended(p.kept + [AfterReport(f, now)], p.reports + [ReportOf(f, now)], d.cursor)
               else Ended(p.kept + [f], p.reports, d.cursor)
  {
    assert fs[..next][..at] == fs[..at];
  }

  /** The states of the list around the flow at index `at` of the original states: replacing
      that flow, or dropping it, or keeping it, after the states already processed. */
  lemma SplitStates(kept: seq<FlowState>, fs: seq<FlowState>, at: int, next: int, x: FlowState)
    requires 0 <= at < |fs| && next == at + 1
    ensures (kept + fs[at..])[|kept| := x] == (kept + [x]) + fs[next..]
    ensures var u := (kept + fs[at..])[|kept| := x]; u[..|kept|] + u[|kept| + 1..] == kept + fs[next..]
    ensures kept + fs[at..] == (kept + [fs[at]]) + fs[next..]
  {
    assert fs[at..] == [fs[at]] + fs[next..];
  }

  /** One round of the reduce loop leaves the reduced count as it was. */
  lemma ReduceOnce(deficit: int, k: int)
    requires k > 1 && deficit / k < 1000
    ensures ReducedCount(deficit, k - 1) == ReducedCount(deficit, k)
  {
    OverIsDiv(deficit, k);
  }

  /** Where the reduce loop exits, the count is the reduced count. */
  lemma ReduceStops(deficit: int, k: int)
    requires !(k > 1 && deficit / k < 1000)
    ensures ReducedCount(deficit, k) == k
  {
    if k > 1 {
      OverIsDiv(deficit, k);
    }
  }

  /** The states of two lists of flows, one after the other. */
  lemma StatesConcat(fs: seq<Flow>, gs: seq<Flow>)
    ensures States(fs + gs) == States(fs) + States(gs)
  {
  }

  /** The identity conversion between a duration in milliseconds and its long value. */
  function Millis(l: Long): Long
  {
    l
  }

  /** `new DurationZufall(random, min, max)`: a sampler over durations in milliseconds. */
  method NewDurationZufall(random: RandomSource, minMs: Long, maxMs: Long) returns (z: Zufall<Long>)
    ensures fresh(z) && z.random == random
    ensures z.AsBounds() == Bounds(minMs, WrapLong(maxMs - minMs))
    ensures forall l :: z.fromLong(l) == l
  {
    z := new Zufall(random, minMs, maxMs, Millis, Millis);
  }

  class FlowGenerator {
    const bytesPerSecond: Long
    const flowDuration: Zufall<Long>
    const maxFlowCount: Int
    const activeTimeout: int
    var ongoingFlows: seq<Flow>
    var lastTick: int
    const random: RandomSource

    /** The duration sampler draws from the generator's own random source, in milliseconds,
        and no flow is listed twice. */
    ghost predicate Valid()
      reads this
    {
      flowDuration.random == random && (forall l :: flowDuration.fromLong(l) == l)
      && Distinct(ongoingFlows)
    }

    /** The builder's values. */
    function Cfg(): Config
    {
      Config(bytesPerSecond, flowDuration.AsBounds(), maxFlowCount, activeTimeout)
    }

    /** The abstract state: the ongoing flows' states, the last tick, the draws used so far. */
    ghost function State(): GenState
      reads this, ongoingFlows, random
    {
      GenState(States(ongoingFlows), lastTick, random.cursor)
    }

    constructor Init(bytesPerSecond: Long, flowDuration: Zufall<Long>, maxFlowCount: Int,
                     activeTimeout: int, now: int, random: RandomSource)
      requires flowDuration.random == random && forall l :: flowDuration.fromLong(l) == l
      ensures Valid() && this.random == random && this.flowDuration == flowDuration
      ensures Cfg() == Config(bytesPerSecond, flowDuration.AsBounds(), maxFlowCount, activeTimeout)
      ensures ongoingFlows == [] && lastTick == now
    {
      this.bytesPerSecond := bytesPerSecond;
      this.flowDuration := flowDuration;
      this.maxFlowCount := maxFlowCount;
      this.activeTimeout := activeTimeout;
      this.lastTick := now;
      this.random := random;
      this.ongoingFlows := [];
    }

    /** `ongoingFlows.stream().mapToLong(Flow::getBytesPerSecond).sum()`. */
    method RateTotal() returns (sum: int)
      requires Valid()
      ensures sum == RateSum(States(ongoingFlows))
    {
      sum := 0;
      var i := 0;
      while i < |ongoingFlows|
        invariant 0 <= i <= |ongoingFlows|
        invariant sum == RateSum(States(ongoingFlows)[..i])
      {
        assert States(ongoingFlows)[..i + 1][..i] == States(ongoingFlows)[..i];
        sum := sum + ongoingFlows[i].GetBytesPerSecond();
        i := i + 1;
      }
      assert States(ongoingFlows)[..i] == States(ongoingFlows);
    }

    /** `spawnFlows(now)`: fill the rate deficit with new flows started at now.  `thrown`
        reports the `ArithmeticException` of a spawn count that the draw made zero. */
    method SpawnFlows(now: int) returns (thrown: bool)
      requires Valid()
      modifies this, random
      ensures Valid() && lastTick == old(lastTick)
      ensures var s := SpawnStep(old(States(ongoingFlows)), Cfg(), now, random.draws, old(random.cursor));
              States(ongoingFlows) == s.flows && random.cursor == s.cursor && thrown == s.thrown
    {
      var total := RateTotal();
      var delta := bytesPerSecond - total;
      thrown := false;
      if delta > 0 {
        thrown := SpawnDeficit(now, delta);
      }
    }

    /** `spawnFlows(now)` once the deficit is known to be positive: draw the count, and divide
        the deficit among that many new flows. */
    method SpawnDeficit(now: int, delta: int) returns (thrown: bool)
      requires Valid() && delta == bytesPerSecond - RateSum(States(ongoingFlows)) && delta > 0
      modifies this, random
      ensures Valid() && lastTick == old(lastTick)
      ensures var s := SpawnStep(old(States(ongoingFlows)), Cfg(), now, random.draws, old(random.cursor));
              States(ongoingFlows) == s.flows && random.cursor == s.cursor && thrown == s.thrown
    {
      var k := DrawFlowCount(delta);
      thrown := SpawnCounted(now, delta, k);
    }

    /** The rest of `spawnFlows` once the count k is drawn: divide the deficit among k new
        flows, or throw for a zero count. */
    method SpawnCounted(now: int, delta: int, k: int) returns (thrown: bool)
      requires Valid() && delta > 0
      modifies this
      ensures Valid() && lastTick == old(lastTick)
      ensures var s := SpawnWithCount(old(States(ongoingFlows)), now, delta, k, random.cursor);
              States(ongoingFlows) == s.flows && thrown == s.thrown
    {
      if k == 0 {
        return true;
      }
      var share := Quot(delta, k);
      if k > 0 {
        OverIsDiv(delta, k);
        assert share == Over(delta, k);
      }
      AppendFlows(now, delta, share, k);
      thrown := false;
    }

    /** The spawn count of `spawnFlows`: a draw from 1 up to the free slots, then lowered while
        the deficit would give each new flow less than 1000 bytes per second. */
    method DrawFlowCount(delta: int) returns (k: int)
      requires Valid()
      modifies random
      ensures var d := Draw(SpawnBounds(Cfg(), |ongoingFlows|), random.draws, old(random.cursor));
              k == ReducedCount(delta, FromLong(d.value)) && random.cursor == d.cursor
    {
      var zl := NewIntegerZufall(random, 1, WrapInt(maxFlowCount - |ongoingFlows|));
      ghost var d := Draw(SpawnBounds(Cfg(), |ongoingFlows|), random.draws, random.cursor);
      assert zl.AsBounds() == SpawnBounds(Cfg(), |ongoingFlows|);
      k := zl.Random();
      ghost var drawn := k;
      assert drawn == FromLong(d.value) && random.cursor == d.cursor;
      while k > 1 && delta / k < 1000
        invariant ReducedCount(delta, k) == ReducedCount(delta, drawn) && random.cursor == d.cursor
        decreases k
      {
        ReduceOnce(delta, k);
        k := k - 1;
      }
      ReduceStops(delta, k);
    }

    /** The spawn loop of `spawnFlows`: k flows started at now, each with the share but the
        last, which takes what remains of the deficit; a count below one spawns nothing. */
    method AppendFlows(now: int, deficit: int, share: int, k: int)
      requires Valid()
      modifies this
      ensures Valid() && lastTick == old(lastTick)
      ensures States(ongoingFlows) == old(States(ongoingFlows)) + (if k > 0 then NewFlows(now, LoopRates(deficit, share, k)) else [])
    {
      ghost var target := States(ongoingFlows) + (if k > 0 then NewFlows(now, LoopRates(deficit, share, k)) else []);
      var delta := deficit;
      var i := 0;
      while i < k
        invariant 0 <= i && (k > 0 ==> i <= k) && (k <= 0 ==> i == 0)
        invariant Valid() && lastTick == old(lastTick)
        invariant i < k ==> States(ongoingFlows) + NewFlows(now, LoopRates(delta, share, k - i)) == target
        invariant i >= k ==> States(ongoingFlows) == target
      {
        var rate := if i == k - 1 then delta else share;
        ghost var cur := States(ongoingFlows);
        if i < k - 1 {
          SpawnLoopStep(cur, now, delta, share, k - i, target);
        }
        AddFlow(now, rate);
        delta := delta - share;
        i := i + 1;
      }
    }

    /** `ongoingFlows.add(new Flow(now, rate))`. */
    method AddFlow(now: int, rate: int)
      requires Valid()
      modifies this
      ensures Valid() && lastTick == old(lastTick)
      ensures |ongoingFlows| == |old(ongoingFlows)| + 1 && ongoingFlows[..|old(ongoingFlows)|] == old(ongoingFlows)
      ensures fresh(ongoingFlows[|old(ongoingFlows)|])
      ensures States(ongoingFlows) == old(States(ongoingFlows)) + [NewFlow(now, rate)]
    {
      var flow := new Flow(now, rate);
      StatesAppend(ongoingFlows, flow);
      ongoingFlows := ongoingFlows + [flow];
    }

    /** `tick(now)`: transmit the tick's budget, end or report flows, spawn, and move
        `lastTick` to now; a spawn that throws leaves `lastTick` where it was and returns
        no reports. */
    method Tick(now: int) returns (reports: seq<FlowReport>, thrown: bool)
      requires Valid()
      modifies this, random, ongoingFlows
      ensures Valid()
      ensures var s := TickStep(Cfg(), old(State()), now, random.draws);
              State() == s.state && reports == s.reports && thrown == s.thrown
    {
      ghost var g := State();
      var tickMs := now - lastTick;
      Transmit(tickMs);
      ghost var moved := Distribute(g.flows, tickMs, bytesPerSecond);
      assert States(ongoingFlows) == moved && random.cursor == g.cursor;
      reports := EndFlowsPass(now);
      ghost var e := EndFlows(moved, now, Cfg(), random.draws, g.cursor);
      assert States(ongoingFlows) == e.kept && reports == e.reports && random.cursor == e.cursor;
      thrown := SpawnFlows(now);
      ghost var sp := SpawnStep(e.kept, Cfg(), now, random.draws, e.cursor);
      ghost var spawned := States(ongoingFlows);
      assert spawned == sp.flows && random.cursor == sp.cursor && thrown == sp.thrown;
      TickStages(Cfg(), g, now, tickMs, random.draws, moved, e, sp);
      if thrown {
        reports := [];
        assert State() == GenState(sp.flows, g.lastTick, sp.cursor);
        return;
      }
      SetLastTick(now);
      assert State() == GenState(sp.flows, now, sp.cursor);
    }

    /** `lastTick = now`: the flows and the random source are untouched. */
    method SetLastTick(now: int)
      requires Valid()
      modifies this
      ensures Valid() && lastTick == now && ongoingFlows == old(ongoingFlows)
      ensures State() == old(State()).(lastTick := now)
    {
      lastTick := now;
    }

    /** The transmit loop of `tick`: from the newest flow down to the oldest, each gets its
        rounded share of the tick and the oldest what is left of the budget, rounded. */
    method Transmit(tickMs: int)
      requires Valid()
      modifies ongoingFlows
      ensures Valid()
      ensures States(ongoingFlows) == Distribute(old(States(ongoingFlows)), tickMs, bytesPerSecond)
    {
      ghost var fs := States(ongoingFlows);
      DistributeEach(fs, tickMs, bytesPerSecond);
      TransmitLoop(tickMs, fs, Distribute(fs, tickMs, bytesPerSecond));
    }

    /** The loop of `Transmit`, towards the population `target` that gives each flow its
        portion of the tick. */
    method TransmitLoop(tickMs: int, ghost fs: seq<FlowState>, ghost target: seq<FlowState>)
      requires Valid() && States(ongoingFlows) == fs && Portions(fs, target, tickMs, bytesPerSecond)
      modifies ongoingFlows
      ensures Valid() && States(ongoingFlows) == target
    {
      ghost var cur := fs;
      var seconds := tickMs as real / 1000.0;
      var bytesToTransmit := bytesPerSecond as real * seconds;
      ghost var handed := 0;
      BudgetRounds(bytesPerSecond, tickMs, seconds);
      var i := |ongoingFlows| - 1;
      ghost var rest: seq<FlowState> := [];
      assert rest == fs[i + 1..];
      while i >= 0
        invariant -1 <= i < |fs| == |cur| == |target| == |ongoingFlows|
        invariant States(ongoingFlows) == cur && Valid()
        invariant TransmittedAbove(cur, fs, target, i)
        invariant i >= 0 ==> rest == fs[i + 1..] && handed == Sum(Shares(rest, tickMs))
        invariant RoundHalfUp(bytesToTransmit) == TickBytes(bytesPerSecond, tickMs) - handed
      {
        var transmit := TransmitAt(i, seconds, bytesToTransmit, tickMs, fs, handed);
        PortionAt(fs, target, tickMs, bytesPerSecond, i, transmit);
        TransmittedStep(cur, fs, target, i);
        cur := cur[i := target[i]];
        bytesToTransmit := bytesToTransmit - transmit as real;
        handed := handed + transmit;
        rest := fs[i..];
        i := i - 1;
      }
      assert cur == target;
    }

    /** The body of the transmit loop at index i, `handed` bytes having gone to the flows above
        it: the flow receives `Math.round` of its own rate times the tick, or at index 0 of what
        is left of the budget. */
    method TransmitAt(i: int, seconds: real, bytesToTransmit: real, ghost tickMs: int, ghost fs: seq<FlowState>,
                      ghost handed: int)
      returns (transmit: int)
      requires Valid() && 0 <= i < |ongoingFlows| == |fs| && ongoingFlows[i].State() == fs[i]
      requires seconds == tickMs as real / 1000.0
      requires handed == Sum(Shares(fs[i + 1..], tickMs))
      requires RoundHalfUp(bytesToTransmit) == TickBytes(bytesPerSecond, tickMs) - handed
      modifies ongoingFlows[i]
      ensures States(ongoingFlows) == old(States(ongoingFlows))[i := Transmitted(fs[i], transmit)]
      ensures i > 0 ==> transmit == FlowShare(tickMs, fs[i].rate) && handed + transmit == Sum(Shares(fs[i..], tickMs))
      ensures i == 0 ==> transmit == TickBytes(bytesPerSecond, tickMs) - Sum(Shares(fs[1..], tickMs))
      ensures RoundHalfUp(bytesToTransmit - transmit as real) == TickBytes(bytesPerSecond, tickMs) - (handed + transmit)
    {
      var flow := ongoingFlows[i];
      var rate := flow.GetBytesPerSecond();
      var amount := if i == 0 then bytesToTransmit else seconds * rate as real;
      transmit := RoundHalfUp(amount);
      TransmitStep(bytesPerSecond, tickMs, seconds, fs, i, rate, handed, bytesToTransmit, amount);
      TransmitFlow(i, transmit);
    }

    /** `flow.transmit(b)` on the flow at index i of the list. */
    method TransmitFlow(i: int, b: int)
      requires Distinct(ongoingFlows) && 0 <= i < |ongoingFlows|
      modifies ongoingFlows[i]
      ensures States(ongoingFlows) == old(States(ongoingFlows))[i := Transmitted(old(States(ongoingFlows))[i], b)]
    {
      ghost var fs := States(ongoingFlows);
      ongoingFlows[i].Transmit(b);
      assert forall j :: 0 <= j < |ongoingFlows| && j != i ==> ongoingFlows[j] != ongoingFlows[i];
      UpdatedAt(States(ongoingFlows), fs, i, Transmitted(fs[i], b));
    }

    /** The iterator loop of `tick`: each flow samples one duration; an older flow is reported
        and removed from the list in place, otherwise a timed-out flow is reported and kept. */
    method EndFlowsPass(now: int) returns (reports: seq<FlowReport>)
      requires Valid()
      modifies this, random, ongoingFlows
      ensures Valid() && lastTick == old(lastTick)
      ensures var e := EndFlows(old(States(ongoingFlows)), now, Cfg(), random.draws, old(random.cursor));
              States(ongoingFlows) == e.kept && reports == e.reports && random.cursor == e.cursor
    {
      ghost var fs := States(ongoingFlows);
      ghost var flows0 := ongoingFlows;
      ghost var c0 := random.cursor;
      ghost var n := 0;
      reports := [];
      var j := 0;
      assert fs[n..] == fs;
      while j < |ongoingFlows|
        invariant 0 <= n <= |fs| == |flows0| && 0 <= j && |ongoingFlows| - j == |fs| - n
        invariant Valid() && lastTick == old(lastTick) && ongoingFlows[j..] == flows0[n..]
        invariant var e := EndFlows(fs[..n], now, Cfg(), random.draws, c0);
                  |e.kept| == j && States(ongoingFlows) == e.kept + fs[n..]
                  && reports == e.reports && random.cursor == e.cursor
        decreases |fs| - n
      {
        j, reports := VisitFlow(now, fs, flows0, c0, n, j, reports);
        n := n + 1;
      }
      assert fs[..n] == fs;
    }

    /** One round of the iterator loop, on the flow at index j, the n-th of the original list. */
    method VisitFlow(now: int, ghost fs: seq<FlowState>, ghost flows0: seq<Flow>, ghost c0: nat, ghost n: int,
                     j: int, reports: seq<FlowReport>)
      returns (next: int, reports': seq<FlowReport>)
      requires 0 <= n < |fs| == |flows0| && 0 <= j < |ongoingFlows| && |ongoingFlows| - j == |fs| - n
      requires Valid() && ongoingFlows[j..] == flows0[n..]
      requires var p := EndFlows(fs[..n], now, Cfg(), random.draws, c0);
               |p.kept| == j && States(ongoingFlows) == p.kept + fs[n..]
               && reports == p.reports && random.cursor == p.cursor
      modifies this, random, ongoingFlows[j]
      ensures 0 <= next && |ongoingFlows| - next == |fs| - (n + 1)
      ensures Valid() && lastTick == old(lastTick) && ongoingFlows[next..] == flows0[n + 1..]
      ensures var e := EndFlows(fs[..n + 1], now, Cfg(), random.draws, c0);
              |e.kept| == next && States(ongoingFlows) == e.kept + fs[n + 1..]
              && reports' == e.reports && random.cursor == e.cursor
    {
      ghost var p := EndFlows(fs[..n], now, Cfg(), random.draws, c0);
      var flow := ongoingFlows[j];
      assert flow == flows0[n] by { assert ongoingFlows[j..][0] == flows0[n..][0]; }
      assert flow.State() == fs[n] by {
        assert States(ongoingFlows)[j] == flow.State();
        assert (p.kept + fs[n..])[j] == fs[n];
      }
      ghost var at, visited := n, States(ongoingFlows);
      var duration := now - flow.GetStart();
      var randomDuration := flowDuration.Random();
      assert States(ongoingFlows) == visited;
      ghost var e := EndFlows(fs[..n + 1], now, Cfg(), random.draws, c0);
      EndFlowsStep(fs, at, n + 1, now, Cfg(), random.draws, c0);
      ghost var rest := ongoingFlows[j..];
      assert rest[1..] == flows0[n + 1..] by { assert flows0[n + 1..] == flows0[at..][1..]; }
      if duration > randomDuration {
        var r := ReportFlow(j, now);
        reports' := reports + [r];
        ghost var before := ongoingFlows;
        RemoveFlow(j);
        next := j;
        assert ongoingFlows[j..] == before[j + 1..] == rest[1..];
        assert e.kept == p.kept && reports' == e.reports;
        assert States(ongoingFlows) == e.kept + fs[n + 1..] by {
          SplitStates(p.kept, fs, at, n + 1, AfterReport(fs[at], now));
        }
      } else {
        if flow.CheckTimeout(now, activeTimeout) {
          var r := ReportFlow(j, now);
          reports' := reports + [r];
          assert e.kept == p.kept + [AfterReport(fs[at], now)] && reports' == e.reports;
          assert States(ongoingFlows) == e.kept + fs[n + 1..] by {
            SplitStates(p.kept, fs, at, n + 1, AfterReport(fs[at], now));
          }
        } else {
          reports' := reports;
          assert e.kept == p.kept + [fs[at]] && reports' == e.reports;
          assert States(ongoingFlows) == e.kept + fs[n + 1..] by {
            SplitStates(p.kept, fs, at, n + 1, fs[at]);
          }
        }
        next := j + 1;
        assert ongoingFlows[next..] == rest[1..];
      }
    }

    /** `flow.report(now)` on the flow at index i of the list. */
    method ReportFlow(i: int, now: int) returns (r: FlowReport)
      requires Distinct(ongoingFlows) && 0 <= i < |ongoingFlows|
      modifies ongoingFlows[i]
      ensures r == ReportOf(old(States(ongoingFlows))[i], now)
      ensures States(ongoingFlows) == old(States(ongoingFlows))[i := AfterReport(old(States(ongoingFlows))[i], now)]
    {
      ghost var fs := States(ongoingFlows);
      r := ongoingFlows[i].Report(now);
      assert forall j :: 0 <= j < |ongoingFlows| && j != i ==> ongoingFlows[j] != ongoingFlows[i];
      UpdatedAt(States(ongoingFlows), fs, i, AfterReport(fs[i], now));
    }

    /** The iterator's `remove()`: the flow at index i leaves the list. */
    method RemoveFlow(i: int)
      requires Distinct(ongoingFlows) && 0 <= i < |ongoingFlows|
      modifies this
      ensures Distinct(ongoingFlows) && lastTick == old(lastTick)
      ensures ongoingFlows == old(ongoingFlows[..i] + ongoingFlows[i + 1..])
      ensures States(ongoingFlows) == old(States(ongoingFlows)[..i] + States(ongoingFlows)[i + 1..])
    {
      ghost var flows := ongoingFlows;
      StatesConcat(flows[..i], flows[i + 1..]);
      ongoingFlows := ongoingFlows[..i] + ongoingFlows[i + 1..];
      assert forall a, b :: 0 <= a < b < |ongoingFlows| ==>
               ongoingFlows[a] == flows[if a < i then a else a + 1] && ongoingFlows[b] == flows[if b < i then b else b + 1];
    }

    /** `shutdown(now)`: report every ongoing flow, in list order, and clear the list. */
    method Shutdown(now: int) returns (reports: seq<FlowReport>)
      requires Valid()
      modifies this, ongoingFlows
      ensures Valid() && ongoingFlows == [] && lastTick == old(lastTick)
      ensures reports == ShutdownReports(old(States(ongoingFlows)), now)
    {
      ghost var fs := States(ongoingFlows);
      reports := [];
      var i := 0;
      while i < |ongoingFlows|
        invariant ongoingFlows == old(ongoingFlows) && lastTick == old(lastTick) && |fs| == |ongoingFlows|
        invariant 0 <= i <= |ongoingFlows|
        invariant forall j :: i <= j < |ongoingFlows| ==> ongoingFlows[j].State() == fs[j]
        invariant reports == ShutdownReports(fs[..i], now)
      {
        var r := ongoingFlows[i].Report(now);
        assert ShutdownReports(fs[..i + 1], now) == ShutdownReports(fs[..i], now) + [ReportOf(fs[i], now)];
        reports := reports + [r];
        i := i + 1;
      }
      assert fs[..i] == fs;
      ongoingFlows := [];
    }
  }

  /** `FlowGenerator.builder()...build(now, random)`: set the fields, then run one spawn pass
      at the start instant. */
  method Build(bytesPerSecond: Long, minFlowDurationMs: Long, maxFlowDurationMs: Long, maxFlowCount: Int,
               activeTimeout: int, now: int, random: RandomSource)
    returns (g: FlowGenerator, thrown: bool)
    modifies random
    ensures fresh(g) && g.Valid() && g.random == random
    ensures g.Cfg() == Config(bytesPerSecond, Bounds(minFlowDurationMs, WrapLong(maxFlowDurationMs - minFlowDurationMs)),
                              maxFlowCount, activeTimeout)
    ensures var s := InitStep(g.Cfg(), now, random.draws, old(random.cursor));
            g.State() == s.state && thrown == s.thrown
  {
    var duration := NewDurationZufall(random, minFlowDurationMs, maxFlowDurationMs);
    g := new FlowGenerator.Init(bytesPerSecond, duration, maxFlowCount, activeTimeout, now, random);
    thrown := g.SpawnFlows(now);
  }
}
