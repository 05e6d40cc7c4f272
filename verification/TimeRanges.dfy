/** Time ranges (internal/domain/repositories/metrics.go). Instants are integers. */
module TimeRanges {
  import opened Basics

  datatype TimeRange = TimeRange(start: int, end: int) {
    predicate Contains(t: int) {
      !(t < start) && !(t > end)
    }
  }

  /** The constructor refuses a range whose start is after its end. */
  function NewTimeRange(start: int, end: int): (r: Option<TimeRange>)
    ensures r.None? <==> forall t :: !TimeRange(start, end).Contains(t)
    ensures r.Some? ==> r.value.Contains(start) && r.value.Contains(end)
    ensures r.Some? ==> forall t :: r.value.Contains(t) <==> start <= t <= end
  {
    if start > end then
      None
    else
      assert TimeRange(start, end).Contains(start);
      Some(TimeRange(start, end))
  }
}
