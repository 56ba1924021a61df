/** The time window of a range task, in microseconds at a fixed UTC offset. */
module RangeWindows {
  import opened Text

  const SECOND := 1_000_000
  const DAY := 86_400 * SECOND

  /** A clock time: microseconds since midnight. */
  type Clock = t: int | 0 <= t < DAY

  function ClockOf(moment: int): Clock
  {
    moment % DAY
  }

  function Midnight(moment: int): int
  {
    moment - moment % DAY
  }

  datatype Window = Window(start: int, end: int)

  predicate Inside(w: Window, moment: int)
  {
    w.start <= moment < w.end
  }

  /** The window computed for the present moment. */
  function WindowAt(start: Clock, end: Clock, now: int): Window
  {
    WindowOn(start, end, Midnight(now), now)
  }

  function WindowOn(start: Clock, end: Clock, day: int, now: int): Window
  {
    var s, e := day + start, day + end;
    if e > s then Window(s, e)
    else if now < e then Window(s - DAY, e)
    else Window(s, e + DAY)
  }

  /** The clock times of a range that may pass midnight; equal bounds mean the whole day. */
  predicate InRange(start: Clock, end: Clock, c: Clock)
  {
    if start < end then start <= c < end else start <= c || c < end
  }

  lemma SameDay(day: int, offset: int)
    requires day % DAY == 0 && 0 <= offset < DAY
    ensures ClockOf(day + offset) == offset && Midnight(day + offset) == day
  {
  }

  /**
   * A window runs from the start time to the end time, lasts at most a day, and holds the moment exactly if the
   * clock is in range.
   */
  lemma WindowLaw(start: Clock, end: Clock, now: int)
    ensures var w := WindowAt(start, end, now);
      && 0 < w.end - w.start <= DAY
      && ClockOf(w.start) == start && ClockOf(w.end) == end
      && (Inside(w, now) <==> InRange(start, end, ClockOf(now)))
  {
    var day := Midnight(now);
    assert day % DAY == 0;
    SameDay(day, start);
    SameDay(day, end);
    SameDay(day - DAY, start);
    SameDay(day + DAY, end);
  }

  /**
   * For a moment out of range the window is the one that begins on the same day: it is still to come, or a window
   * that does not pass midnight and is over.
   */
  lemma WindowOutside(start: Clock, end: Clock, now: int)
    requires !InRange(start, end, ClockOf(now))
    ensures var w := WindowAt(start, end, now);
      && Midnight(w.start) == Midnight(now) && ClockOf(w.start) == start
      && (start < end && end <= ClockOf(now) <==> w.end <= now)
      && (w.end <= now || now < w.start)
  {
    SameDay(Midnight(now), start);
  }

  /** Every moment of a window that holds its own moment computes the same window. */
  lemma WindowOfMember(start: Clock, end: Clock, now: int, moment: int)
    requires Inside(WindowAt(start, end, now), now) && Inside(WindowAt(start, end, now), moment)
    ensures WindowAt(start, end, moment) == WindowAt(start, end, now)
  {
    var day := Midnight(now);
    assert day % DAY == 0 && day <= now < day + DAY;
    var other := if moment < day then day - DAY else if moment < day + DAY then day else day + DAY;
    assert Inside(WindowOn(start, end, day, now), moment);
    SameDay(other, moment - other);
    MemberOn(start, end, day, now, other, moment);
  }

  lemma MemberOn(start: Clock, end: Clock, day: int, now: int, other: int, moment: int)
    requires day <= now < day + DAY && other <= moment < other + DAY
    requires other == day - DAY || other == day || other == day + DAY
    requires Inside(WindowOn(start, end, day, now), now) && Inside(WindowOn(start, end, day, now), moment)
    ensures WindowOn(start, end, other, moment) == WindowOn(start, end, day, now)
  {
  }

  /** Two windows that hold their own moments are the same or do not overlap. */
  lemma WindowsPartition(start: Clock, end: Clock, a: int, b: int)
    requires Inside(WindowAt(start, end, a), a) && Inside(WindowAt(start, end, b), b)
    ensures var v, w := WindowAt(start, end, a), WindowAt(start, end, b); v == w || v.end <= w.start || w.end <= v.start
  {
    var v, w := WindowAt(start, end, a), WindowAt(start, end, b);
    if v.start < w.end && w.start < v.end {
      var common := if v.start < w.start then w.start else v.start;
      WindowLaw(start, end, a);
      WindowLaw(start, end, b);
      WindowOfMember(start, end, a, common);
      WindowOfMember(start, end, b, common);
    }
  }

  // ---------- compensation ----------

  /** What the compensation looks at; a bound is absent if it is missing, empty or no clock time. */
  datatype RangeTask = RangeTask(isRange: bool, start: Option<Clock>, end: Option<Clock>, pendingOneShot: bool,
                                 lastRun: Option<Run>)

  /** The last recorded run, if its time can be read. */
  datatype Run = Run(time: int, success: bool)

  function Min(a: int, b: int): int { if a < b then a else b }

  function Max(a: int, b: int): int { if a > b then a else b }

  predicate NeedsCompensation(task: RangeTask, now: int)
  {
    && task.isRange && task.start.Some? && task.end.Some?
    && Inside(WindowAt(task.start.value, task.end.value, now), now)
    && !task.pendingOneShot
    && !(task.lastRun.Some? && task.lastRun.value.success
      && task.lastRun.value.time >= WindowAt(task.start.value, task.end.value, now).start)
  }

  /** A success was recorded since the moment. */
  predicate SucceededSince(task: RangeTask, moment: int)
  {
    task.lastRun.Some? && task.lastRun.value.success && moment <= task.lastRun.value.time
  }

  /** A missed run is made up for later in the very window the present moment is in, and at most once per window. */
  method Compensation(task: RangeTask, now: int) returns (r: Option<int>)
    ensures r.Some? <==> NeedsCompensation(task, now)
    ensures r.Some? <==>
      && task.isRange && task.start.Some? && task.end.Some? && !task.pendingOneShot
      && InRange(task.start.value, task.end.value, ClockOf(now))
      && !SucceededSince(task, WindowAt(task.start.value, task.end.value, now).start)
    ensures r.Some? ==> now < r.value <= WindowAt(task.start.value, task.end.value, now).end
    ensures r.Some? ==> var left := WindowAt(task.start.value, task.end.value, now).end - now;
      if left <= 15 * SECOND then r.value == now + Min(2 * SECOND, left)
        else now + 5 * SECOND <= r.value <= now + left - 5 * SECOND
  {
    if !task.isRange { return None; }
    if task.start.None? || task.end.None? { return None; }
    var window := WindowAt(task.start.value, task.end.value, now);
    WindowLaw(task.start.value, task.end.value, now);
    if !Inside(window, now) { return None; }
    if task.pendingOneShot { return None; }
    if task.lastRun.Some? && task.lastRun.value.time >= window.start && task.lastRun.value.success { return None; }
    var remaining := Max(0, window.end - now);
    var delay;
    if remaining <= 15 * SECOND {
      delay := Min(2 * SECOND, remaining);
    } else {
      var most := Max(5 * SECOND, remaining - 5 * SECOND);
      delay :| 5 * SECOND <= delay <= most;
    }
    return Some(now + delay);
  }

  /** A successful run in the window of the present moment ends all compensation for the rest of that window. */
  lemma OncePerWindow(task: RangeTask, now: int, done: int, later: int)
    requires task.start.Some? && task.end.Some? && done <= later
    requires Inside(WindowAt(task.start.value, task.end.value, now), now)
    requires Inside(WindowAt(task.start.value, task.end.value, now), done)
    requires Inside(WindowAt(task.start.value, task.end.value, now), later)
    ensures !NeedsCompensation(task.(lastRun := Some(Run(done, true))), later)
  {
    WindowOfMember(task.start.value, task.end.value, now, later);
  }

  /**
   * The random delay of a regular trigger; a late trigger never pushes the run past the end of its window, and after
   * that end there is no delay.
   */
  method RegularDelay(start: Clock, end: Clock, now: int) returns (delay: int)
    ensures 0 <= delay && delay <= Max(0, WindowAt(start, end, now).end - now)
    ensures Inside(WindowAt(start, end, now), now) ==>
      Inside(WindowAt(start, end, now), now + delay) || now + delay == WindowAt(start, end, now).end
    ensures delay <= DAY
    ensures start < end && end <= ClockOf(now) ==> delay == 0
    ensures !InRange(start, end, ClockOf(now)) && start > end ==> now + delay <= Midnight(now) + DAY + end
  {
    WindowLaw(start, end, now);
    if !InRange(start, end, ClockOf(now)) { WindowOutside(start, end, now); }
    var window := WindowAt(start, end, now);
    var drawn :| 0 <= drawn <= window.end - window.start;
    delay := Min(drawn, Max(0, window.end - now));
  }
}
