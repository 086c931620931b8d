/**
 How a usage-history query is resolved to a window and a step (internal/system/history.go). Times and
 durations are nanoseconds; texts that have to be parsed come in as what parsing made of them.
 */
module HistoryWindow {
  import opened Options
  import opened Units

  const HISTORY_RETENTION: int := 24 * 3600 * SECOND
  const DEFAULT_HISTORY_RANGE: int := 3600 * SECOND
  const MAX_HISTORY_POINTS: int := 720

  /** A request field: left out, not parseable, or a time or duration. */
  datatype Arg = Absent | Malformed | Given(value: int)

  datatype QueryError = InvalidFrom | InvalidTo | ToNotAfterFrom | InvalidRange | RangeNotPositive
                      | InvalidStep | StepNotPositive

  datatype Span = Span(from: int, to: int)

  function ResolveWindow(reqFrom: Arg, reqTo: Arg, reqRange: Arg, now: int): Result<Span, QueryError> {
    if !reqFrom.Absent? && !reqTo.Absent? then
      if reqFrom.Malformed? then Err(InvalidFrom)
      else if reqTo.Malformed? then Err(InvalidTo)
      else if reqTo.value <= reqFrom.value then Err(ToNotAfterFrom)
      else Ok(Clamp(reqFrom.value, reqTo.value, now))
    else
      match reqRange
      case Absent => Ok(Clamp(now - DEFAULT_HISTORY_RANGE, now, now))
      case Malformed => Err(InvalidRange)
      case Given(d) => if d <= 0 then Err(RangeNotPositive) else Ok(Clamp(now - d, now, now))
  }

  function Clamp(from: int, to: int, now: int): Span {
    var to1 := if to > now then now else to;
    var floor := now - HISTORY_RETENTION;
    var from1 := if from < floor then floor else from;
    var to2 := if to1 <= from1 then from1 + SECOND else to1;
    Span(from1, to2)
  }

  /**
   The window is never empty and never starts before the retention limit. It is meant to lie in
   [now - retention, now]; it ends in the future exactly when it starts now or later, which only an
   explicit start can ask for.
   */
  lemma WindowWithinRetention(reqFrom: Arg, reqTo: Arg, reqRange: Arg, now: int)
    requires ResolveWindow(reqFrom, reqTo, reqRange, now).Ok?
    ensures var w := ResolveWindow(reqFrom, reqTo, reqRange, now).value;
            && w.from < w.to
            && now - HISTORY_RETENTION <= w.from
            && (w.to > now <==> w.from >= now)
            && (w.from >= now <==> reqFrom.Given? && !reqTo.Absent? && reqFrom.value >= now)
  {
  }

  predicate InSpan(w: Span, t: int) { w.from <= t < w.to }

  /** The requests that are refused, each for the first reason that applies. */
  lemma WindowErrors(reqFrom: Arg, reqTo: Arg, reqRange: Arg, now: int)
    ensures var r := ResolveWindow(reqFrom, reqTo, reqRange, now);
            if !reqFrom.Absent? && !reqTo.Absent? then
              && (r == Err(InvalidFrom) <==> reqFrom.Malformed?)
              && (r == Err(InvalidTo) <==> reqFrom.Given? && reqTo.Malformed?)
              && (r == Err(ToNotAfterFrom) <==> reqFrom.Given? && reqTo.Given? && reqTo.value <= reqFrom.value)
              && (r.Ok? <==> reqFrom.Given? && reqTo.Given? && reqFrom.value < reqTo.value)
            else
              && (r == Err(InvalidRange) <==> reqRange.Malformed?)
              && (r == Err(RangeNotPositive) <==> reqRange.Given? && reqRange.value <= 0)
              && (r.Ok? <==> reqRange.Absent? || (reqRange.Given? && reqRange.value > 0))
  {
  }

  /**
   The window answers what was asked: from and to when both are given, else the range back from now, else
   the last hour. Of these instants it covers exactly those of the last 24 hours. Where there are none, it
   is the second from the start asked for, or from 24 hours ago.
   */
  lemma WindowIsAsked(reqFrom: Arg, reqTo: Arg, reqRange: Arg, now: int)
    requires ResolveWindow(reqFrom, reqTo, reqRange, now).Ok?
    ensures var w := ResolveWindow(reqFrom, reqTo, reqRange, now).value;
            var both, oldest := reqFrom.Given? && reqTo.Given?, now - 86_400_000_000_000;
            var lo := if both then reqFrom.value else if reqRange.Given? then now - reqRange.value else now - 3_600_000_000_000;
            var hi := if both then reqTo.value else now;
            && w.from == (if lo < oldest then oldest else lo)
            && (lo < now && oldest < hi ==>
                  w.to == (if hi > now then now else hi) && forall t :: InSpan(w, t) <==> lo <= t < hi && oldest <= t < now)
            && (!(lo < now && oldest < hi) ==> w.to == w.from + 1_000_000_000)
  {
    WindowErrors(reqFrom, reqTo, reqRange, now);
  }

  function ResolveStep(reqStep: Arg, span: int, nativeInterval: int): Result<int, QueryError> {
    match reqStep
    case Malformed => Err(InvalidStep)
    case Absent => Ok(Coarsen(nativeInterval, span, nativeInterval))
    case Given(d) => if d <= 0 then Err(StepNotPositive) else Ok(Coarsen(d, span, nativeInterval))
  }

  function Coarsen(requested: int, span: int, nativeInterval: int): int {
    var step := if requested < nativeInterval then nativeInterval else requested;
    if span > 0 && span / MAX_HISTORY_POINTS > step then span / MAX_HISTORY_POINTS else step
  }

  /** The step asked for, no finer than the samples and than the intended cap allows; and when it is refused. */
  lemma StepIsAsked(reqStep: Arg, span: int, nativeInterval: int)
    ensures var r := ResolveStep(reqStep, span, nativeInterval);
            var asked := if reqStep.Given? && reqStep.value > nativeInterval then reqStep.value else nativeInterval;
            && (r == Err(InvalidStep) <==> reqStep.Malformed?)
            && (r == Err(StepNotPositive) <==> reqStep.Given? && reqStep.value <= 0)
            && (r.Ok? ==> r.value == if span > 0 && span / 720 > asked then span / 720 else asked)
            && (r.Err? ==> r.error == InvalidStep || r.error == StepNotPositive)
  {
  }

  function NumBuckets(span: int, step: int): nat {
    if span <= 0 || step <= 0 then 0
    else
      var n := span / step + (if span % step != 0 then 1 else 0);
      if n < 1 then 1 else n
  }

  /** The number of buckets is the smallest that covers the span. */
  lemma BucketsCoverSpan(span: int, step: int, k: int)
    requires span > 0 && step > 0
    ensures NumBuckets(span, step) <= k <==> span <= k * step
  {
    var q, r := span / step, span % step;
    assert span == q * step + r;
    if k <= q - 1 {
      assert k * step <= (q - 1) * step by { MulMonotone(k, q - 1, step); }
    } else if k >= q + 1 {
      assert (q + 1) * step <= k * step by { MulMonotone(q + 1, k, step); }
    }
  }

  lemma MulMonotone(a: int, b: int, step: int)
    requires a <= b && step > 0
    ensures a * step <= b * step
  {
    assert b * step - a * step == (b - a) * step;
  }

  /** The step asked for, or the native interval where that is longer. */
  function Requested(reqStep: Arg, nativeInterval: int): int {
    if reqStep.Given? && reqStep.value > nativeInterval then reqStep.value else nativeInterval
  }

  /** A step no finer than the native interval, than the one asked for and than the intended cap allows. */
  predicate IsAllowed(reqStep: Arg, span: int, nativeInterval: int, step: int) {
    step >= nativeInterval && (reqStep.Given? ==> step >= reqStep.value) && step >= span / MAX_HISTORY_POINTS
  }

  /**
   The step is the smallest allowed one. It is meant to keep a series within 720 points, and does exactly
   when 720 divides the span or the requested step and the native interval are not both within
   floor(span / 720); with a native interval of at least 720 ns there is at most one point too many.
   */
  lemma PointCount(reqStep: Arg, span: int, nativeInterval: int)
    requires span > 0 && nativeInterval > 0 && ResolveStep(reqStep, span, nativeInterval).Ok?
    ensures var step := ResolveStep(reqStep, span, nativeInterval).value;
            && IsAllowed(reqStep, span, nativeInterval, step)
            && (forall s: int | IsAllowed(reqStep, span, nativeInterval, s) :: step <= s)
            && (NumBuckets(span, step) <= MAX_HISTORY_POINTS <==>
                  span % MAX_HISTORY_POINTS == 0 || Requested(reqStep, nativeInterval) > span / MAX_HISTORY_POINTS)
            && (nativeInterval >= MAX_HISTORY_POINTS ==> NumBuckets(span, step) <= MAX_HISTORY_POINTS + 1)
  {
    var step := ResolveStep(reqStep, span, nativeInterval).value;
    BucketsCoverSpan(span, step, MAX_HISTORY_POINTS);
    BucketsCoverSpan(span, step, MAX_HISTORY_POINTS + 1);
  }

  /** 721 points: an hour and one nanosecond at the default step. */
  lemma CapIsExceeded()
    ensures var span := DEFAULT_HISTORY_RANGE + 1;
            var step := ResolveStep(Absent, span, SECOND);
            step == Ok(5 * SECOND) && NumBuckets(span, step.value) == MAX_HISTORY_POINTS + 1
  {
  }
}
