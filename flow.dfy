/** `Flow`: one simulated conversation, a byte accumulator that reports and resets. */
module Flows {
  import opened Reports

  /** The value of a flow's fields: creation instant, configured rate (bytes per second),
      instant of the last report, and bytes accumulated since then. */
  datatype FlowState = FlowState(start: int, rate: int, reported: int, bytes: int)

  /** A freshly created flow: nothing accumulated, last reported at its creation. */
  function NewFlow(start: int, rate: int): (f: FlowState)
    ensures f.reported == f.start == start && f.rate == rate && f.bytes == 0
  {
    FlowState(start, rate, start, 0)
  }

  /** The report `report(now)` emits: from the last report to now, with the accumulated bytes. */
  function ReportOf(f: FlowState, now: int): FlowReport
  {
    FlowReport(f.reported, now, f.bytes)
  }

  /** The flow after `report(now)`: last reported now, accumulator reset. */
  function AfterReport(f: FlowState, now: int): FlowState
  {
    f.(reported := now, bytes := 0)
  }

  /** The flow after `transmit(b)`. */
  function Transmitted(f: FlowState, b: int): FlowState
  {
    f.(bytes := f.bytes + b)
  }

  /** `checkTimeout(now, activeTimeout)`: the last report plus the timeout is not after now,
      so a flow exactly at the boundary has timed out. */
  predicate TimedOut(f: FlowState, now: int, activeTimeout: int)
    ensures TimedOut(f, now, activeTimeout) <==> f.reported + activeTimeout <= now
  {
    !(f.reported + activeTimeout > now)
  }

  function Sum(xs: seq<int>): int
  {
    if xs == [] then 0 else Sum(xs[..|xs| - 1]) + xs[|xs| - 1]
  }

  lemma {:induction false} SumConcat(a: seq<int>, b: seq<int>)
    ensures Sum(a + b) == Sum(a) + Sum(b)
    decreases |b|
  {
    if b == [] {
      assert a + b == a;
    } else {
      assert (a + b)[..|a + b| - 1] == a + b[..|b| - 1];
      SumConcat(a, b[..|b| - 1]);
    }
  }

  /** The flow after a run of `transmit` calls with the given amounts, in order. */
  function TransmitAll(f: FlowState, amounts: seq<int>): FlowState
  {
    if amounts == [] then f
    else Transmitted(TransmitAll(f, amounts[..|amounts| - 1]), amounts[|amounts| - 1])
  }

  /** Transmitting only grows the accumulator: start, rate and last report are untouched,
      and the bytes grow by the sum of the amounts. */
  lemma {:induction false} TransmitAllAdds(f: FlowState, amounts: seq<int>)
    ensures TransmitAll(f, amounts) == f.(bytes := f.bytes + Sum(amounts))
    decreases |amounts|
  {
    if amounts != [] {
      TransmitAllAdds(f, amounts[..|amounts| - 1]);
    }
  }

  /** The bytes of a report are the sum of all amounts transmitted since the flow was created
      or since its previous report. */
  lemma ReportCollectsTransmits(f: FlowState, since: int, amounts: seq<int>, now: int)
    requires f.bytes == 0 && f.reported == since
    ensures ReportOf(TransmitAll(f, amounts), now) == FlowReport(since, now, Sum(amounts))
  {
    TransmitAllAdds(f, amounts);
  }

  /** Reporting twice at the same instant: the second report is empty and spans no time. */
  lemma SecondReportIsEmpty(f: FlowState, now: int)
    ensures ReportOf(AfterReport(f, now), now) == FlowReport(now, now, 0)
  {
  }

  /** Right after a report, no positive timeout has elapsed. */
  lemma NoTimeoutRightAfterReport(f: FlowState, now: int, activeTimeout: int)
    requires activeTimeout > 0
    ensures !TimedOut(AfterReport(f, now), now, activeTimeout)
  {
  }

  /** Neither reporting nor transmitting changes a flow's start or its configured rate. */
  lemma StartAndRateAreFixed(f: FlowState, now: int, amounts: seq<int>)
    ensures AfterReport(f, now).start == f.start && AfterReport(f, now).rate == f.rate
    ensures TransmitAll(f, amounts).start == f.start && TransmitAll(f, amounts).rate == f.rate
  {
    TransmitAllAdds(f, amounts);
  }

  class Flow {
    const start: int
    const bytesPerSecond: int
    var reported: int
    var bytes: int

    constructor (start: int, bytesPerSecond: int)
      ensures State() == NewFlow(start, bytesPerSecond)
    {
      this.start := start;
      this.bytesPerSecond := bytesPerSecond;
      reported := start;
      bytes := 0;
    }

    /** The current values of the fields. */
    function State(): FlowState
      reads this
    {
      FlowState(start, bytesPerSecond, reported, bytes)
    }

    function GetStart(): int
    {
      start
    }

    function GetBytesPerSecond(): int
    {
      bytesPerSecond
    }

    /** `checkTimeout`: inclusive at the boundary, and it changes nothing. */
    predicate CheckTimeout(now: int, activeTimeout: int)
      reads this
      ensures CheckTimeout(now, activeTimeout) <==> reported + activeTimeout <= now
    {
      TimedOut(State(), now, activeTimeout)
    }

    method Report(now: int) returns (r: FlowReport)
      modifies this
      ensures r == ReportOf(old(State()), now)
      ensures State() == AfterReport(old(State()), now)
    {
      r := FlowReport(reported, now, bytes);
      reported := now;
      bytes := 0;
    }

    method Transmit(b: int)
      modifies this
      ensures State() == Transmitted(old(State()), b)
    {
      bytes := bytes + b;
    }
  }
}
