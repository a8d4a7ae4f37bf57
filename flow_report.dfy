/** `FlowReport`: the immutable (start, end, bytes) snapshot a flow emits when it reports. */
module Reports {

  /** Instants are epoch milliseconds. The constructor checks only that both instants exist:
      it imposes no order between start and end and no sign on bytes. */
  datatype FlowReport = FlowReport(start: int, end: int, bytes: int)
  {
    function GetStart(): int
    {
      start
    }

    function GetEnd(): int
    {
      end
    }

    function GetBytes(): int
    {
      bytes
    }

    /** `getDuration()`: the span from start to end, in milliseconds. */
    function GetDuration(): (d: int)
      ensures start + d == end
    {
      end - start
    }

    /** `equals`: field-by-field comparison, which is exactly value equality of reports. */
    predicate Equals(other: FlowReport)
      ensures Equals(other) <==> this == other
    {
      bytes == other.bytes && start == other.start && end == other.end
    }
  }

  /** The getters give back exactly what the report was built from. */
  lemma GettersReturnArguments(start: int, end: int, bytes: int)
    ensures var r := FlowReport(start, end, bytes);
            r.GetStart() == start && r.GetEnd() == end && r.GetBytes() == bytes
            && r.GetDuration() == end - start
  {
  }

  /** The bytes of a sequence of reports, added up. */
  function ReportedBytes(rs: seq<FlowReport>): int
  {
    if rs == [] then 0 else ReportedBytes(rs[..|rs| - 1]) + rs[|rs| - 1].bytes
  }

  lemma {:induction false} ReportedBytesConcat(a: seq<FlowReport>, b: seq<FlowReport>)
    ensures ReportedBytes(a + b) == ReportedBytes(a) + ReportedBytes(b)
    decreases |b|
  {
    if b == [] {
      assert a + b == a;
    } else {
      assert (a + b)[..|a + b| - 1] == a + b[..|b| - 1];
      ReportedBytesConcat(a, b[..|b| - 1]);
    }
  }
}
