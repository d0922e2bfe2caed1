/**
 * The choice of the time range a rosbag upload covers, from the optional start, stop, start offset
 * and total duration given on the command line and the bag's own start and stop
 * (upload_rosbag.rs, `run`). Instants and durations are integer nanoseconds.
 */
module TimeSelection {
  import opened Wrappers

  /** The warnings the selection logs instead of failing. */
  datatype Warning = BothStopAndTotalDuration | StartBeforeBagStart | StopAfterBagStop

  /** The requested range, before it is clamped to the bag. */
  datatype Request = Request(start: Option<int>, offset: Option<int>, stop: Option<int>, totalDuration: Option<int>)

  /** The chosen range and the warnings logged on the way, in the order they are logged. */
  datatype Selection = Selection(start: int, stop: int, warnings: seq<Warning>)

  /** The start before clamping: the given start, or the bag's start, shifted by the offset. */
  function RequestedStart(req: Request, bagStart: int): (r: int)
    ensures req.start.Some? && req.offset.Some? ==> r == req.start.value + req.offset.value
    ensures req.start.None? && req.offset.None? ==> r == bagStart
    ensures req.start.Some? && req.offset.None? ==> r == req.start.value
    ensures req.start.None? && req.offset.Some? ==> r == bagStart + req.offset.value
  {
    req.start.GetOr(bagStart) + req.offset.GetOr(0)
  }

  /** The stop before clamping, and whether choosing it logged a warning. */
  function RequestedStop(req: Request, requestedStart: int, bagStop: int): (r: (int, seq<Warning>))
    ensures req.stop.Some? ==> r.0 == req.stop.value
    ensures req.stop.None? && req.totalDuration.Some? ==> r.0 == requestedStart + req.totalDuration.value
    ensures req.stop.None? && req.totalDuration.None? ==> r.0 == bagStop
    ensures r.1 == (if req.stop.Some? && req.totalDuration.Some? then [BothStopAndTotalDuration] else [])
  {
    match (req.totalDuration, req.stop)
    case (Some(_), Some(stop)) => (stop, [BothStopAndTotalDuration])
    case (Some(total), None) => (requestedStart + total, [])
    case (None, Some(stop)) => (stop, [])
    case _ => (bagStop, [])
  }

  /** The whole selection: the requested range, then the start raised to the bag's start and the
      stop lowered to the bag's stop, each with a warning when it moves. */
  function SelectUploadRange(req: Request, bagStart: int, bagStop: int): (r: Selection)
    ensures r.start == Max(RequestedStart(req, bagStart), bagStart)
    ensures r.stop == Min(RequestedStop(req, RequestedStart(req, bagStart), bagStop).0, bagStop)
    ensures StartBeforeBagStart in r.warnings <==> RequestedStart(req, bagStart) < bagStart
    ensures StopAfterBagStop in r.warnings <==> RequestedStop(req, RequestedStart(req, bagStart), bagStop).0 > bagStop
    ensures BothStopAndTotalDuration in r.warnings <==> req.stop.Some? && req.totalDuration.Some?
  {
    var start := RequestedStart(req, bagStart);
    var (stop, w) := RequestedStop(req, start, bagStop);
    var (start', w') := if bagStart <= start then (start, w) else (bagStart, w + [StartBeforeBagStart]);
    var (stop', w'') := if stop <= bagStop then (stop, w') else (bagStop, w' + [StopAfterBagStop]);
    Selection(start', stop', w'')
  }

  function Max(a: int, b: int): int { if a < b then b else a }
  function Min(a: int, b: int): int { if a < b then a else b }

  /** The offset shifts an explicit start as well as the bag's start. */
  lemma OffsetAppliesToExplicitStart(start: int, offset: int, bagStart: int, bagStop: int)
    requires bagStart <= start + offset
    ensures SelectUploadRange(Request(Some(start), Some(offset), None, None), bagStart, bagStop).start == start + offset
  {
  }

  /** The stop a total duration gives is measured from the start before it is clamped, so a start
      clamped up to the bag does not move it: the range shrinks rather than shifts. */
  lemma TotalDurationFromUnclampedStart(req: Request, bagStart: int, bagStop: int)
    requires req.stop.None? && req.totalDuration.Some?
    requires RequestedStart(req, bagStart) + req.totalDuration.value <= bagStop
    ensures SelectUploadRange(req, bagStart, bagStop).stop == RequestedStart(req, bagStart) + req.totalDuration.value
  {
  }

  /** The selected range always lies inside the bag: the start is at or after the bag's start and
      the stop at or before the bag's stop. */
  lemma SelectionWithinBag(req: Request, bagStart: int, bagStop: int)
    ensures bagStart <= SelectUploadRange(req, bagStart, bagStop).start
    ensures SelectUploadRange(req, bagStart, bagStop).stop <= bagStop
  {
  }

  /** A range already inside the bag is passed on as requested and without a clamping warning. */
  lemma RangeInsideBagUnchanged(req: Request, bagStart: int, bagStop: int)
    requires bagStart <= RequestedStart(req, bagStart)
    requires RequestedStop(req, RequestedStart(req, bagStart), bagStop).0 <= bagStop
    ensures var s := SelectUploadRange(req, bagStart, bagStop);
            s.start == RequestedStart(req, bagStart) &&
            s.stop == RequestedStop(req, RequestedStart(req, bagStart), bagStop).0 &&
            StartBeforeBagStart !in s.warnings && StopAfterBagStop !in s.warnings
  {
  }

  /** Nothing orders the two ends: a stop requested before the start comes out inverted, with no
      warning about it. */
  lemma InvertedRangePassesThrough()
    ensures SelectUploadRange(Request(Some(50), None, Some(20), None), 0, 100) == Selection(50, 20, [])
  {
  }

  /** Selecting again from the result, with that range as explicit start and stop and no offset or
      duration, gives the same range and no warnings. */
  lemma SelectionIdempotent(req: Request, bagStart: int, bagStop: int)
    ensures var s := SelectUploadRange(req, bagStart, bagStop);
            var again := SelectUploadRange(Request(Some(s.start), None, Some(s.stop), None), bagStart, bagStop);
            again == Selection(s.start, s.stop, [])
  {
  }
}
