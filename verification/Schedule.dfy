/**
 Backup schedules: validity, the next fire time and its search.  Instants are
 UTC nanoseconds from Go's zero time, midnight of Monday, 1 January of year 1.
 */
module Schedule {
  import opened Wrappers

  type Instant = int

  const SECOND := 1_000_000_000
  const MINUTE := 60 * SECOND
  const HOUR := 60 * MINUTE
  const DAY := 24 * HOUR

  datatype Kind = Daily | Weekly | Interval | UnknownKind

  datatype Schedule = Schedule(
    nameValid: bool,
    kind: Kind,
    timeOfDay: string,
    weekday: int,
    intervalHours: int,
    enabled: bool,
    retention: int,
    updated: Instant,
    lastRun: Option<Instant>,
    lastStatus: Status,
    next: Instant)

  datatype Status = Never | Succeeded | Failed

  datatype Invalid = BadName | BadWeekday | BadInterval | BadKind | BadTime | BadRetention

  // ---- validity -------------------------------------------------------------------------

  function Digit(c: char): int {
    if '0' <= c <= '9' then c as int - '0' as int else -1
  }

  /** HH:MM from 00:00 to 23:59. */
  predicate ValidTime(s: string) {
    && |s| == 5 && s[2] == ':'
    && ((0 <= Digit(s[0]) <= 1 && Digit(s[1]) >= 0) || (Digit(s[0]) == 2 && 0 <= Digit(s[1]) <= 3))
    && 0 <= Digit(s[3]) <= 5 && Digit(s[4]) >= 0
  }

  function Validate(sc: Schedule): Option<Invalid> {
    if !sc.nameValid then Some(BadName)
    else if sc.kind.UnknownKind? then Some(BadKind)
    else if sc.kind.Weekly? && !(0 <= sc.weekday <= 6) then Some(BadWeekday)
    else if sc.kind.Interval? && !(1 <= sc.intervalHours <= 168) then Some(BadInterval)
    else if !sc.kind.Interval? && !ValidTime(sc.timeOfDay) then Some(BadTime)
    else if !(0 <= sc.retention <= 365) then Some(BadRetention)
    else None
  }

  predicate Valid(sc: Schedule) {
    Validate(sc).None?
  }

  /** What a schedule must look like to be stored. */
  lemma ValidExactly(sc: Schedule)
    ensures Valid(sc) <==>
              && sc.nameValid && !sc.kind.UnknownKind? && 0 <= sc.retention <= 365
              && (sc.kind.Weekly? ==> 0 <= sc.weekday <= 6)
              && (if sc.kind.Interval? then 1 <= sc.intervalHours <= 168 else ValidTime(sc.timeOfDay))
  {
  }

  function Hours(s: string): (h: int)
    requires ValidTime(s)
    ensures 0 <= h < 24
  {
    Digit(s[0]) * 10 + Digit(s[1])
  }

  function Minutes(s: string): (m: int)
    requires ValidTime(s)
    ensures 0 <= m < 60
  {
    Digit(s[3]) * 10 + Digit(s[4])
  }

  /** The offset of HH:MM from midnight. */
  function Clock(s: string): (t: int)
    requires ValidTime(s)
    ensures 0 <= t < DAY
  {
    Hours(s) * HOUR + Minutes(s) * MINUTE
  }

  // ---- the calendar ---------------------------------------------------------------------

  function DayOf(t: Instant): int {
    t / DAY
  }

  /** 0 is Sunday. */
  function Weekday(t: Instant): int {
    (DayOf(t) + 1) % 7
  }

  /** The instants at which a wall-clock schedule fires. */
  predicate Fires(sc: Schedule, t: Instant)
    requires Valid(sc) && !sc.kind.Interval?
  {
    && t == DayOf(t) * DAY + Clock(sc.timeOfDay)
    && (sc.kind.Weekly? ==> Weekday(t) == sc.weekday)
  }

  /** Times of day in seconds after midnight. */
  lemma KnownClocks()
    ensures ValidTime("00:00") && Clock("00:00") == 0
    ensures ValidTime("01:02") && Clock("01:02") == 3_720 * SECOND
    ensures ValidTime("23:59") && Clock("23:59") == 86_340 * SECOND
    ensures !ValidTime("24:00") && !ValidTime("12:60") && !ValidTime("1:02")
  {
  }

  /** Monday 1 January 1, Thursday 1 January 1970, Saturday 1 January 2000 and the Sunday after it. */
  lemma KnownWeekdays()
    ensures Weekday(0) == 1 && Weekday(719_162 * DAY) == 4
    ensures Weekday(730_119 * DAY) == 6 && Weekday(730_120 * DAY) == 0
    ensures Weekday(730_120 * DAY - 1) == 6 && Weekday(-1) == 0
  {
  }

  // ---- the next run -----------------------------------------------------------------------

  const STEPS := 8

  predicate Hits(from: Instant, weekday: int, t: Instant) {
    t > from && (weekday < 0 || Weekday(t) == weekday)
  }

  /** The eight-step search from a candidate, with the value it falls back to. */
  function Search(from: Instant, weekday: int, candidate: Instant, i: nat): Instant
    requires i <= STEPS
    decreases STEPS - i, from
  {
    if i == STEPS then from + DAY
    else if Hits(from, weekday, candidate) then candidate
    else Search(from, weekday, candidate + DAY, i + 1)
  }

  /** The time of day on the day of `from`. */
  function FirstCandidate(from: Instant, tod: string): Instant
    requires ValidTime(tod)
  {
    DayOf(from) * DAY + Clock(tod)
  }

  function NextRun(sc: Schedule, from: Instant): Instant
    requires Valid(sc)
  {
    if sc.kind.Interval? then from + sc.intervalHours * HOUR
    else Search(from, if sc.kind.Daily? then -1 else sc.weekday, FirstCandidate(from, sc.timeOfDay), 0)
  }

  lemma DayParts(d: int, c: int)
    requires 0 <= c < DAY
    ensures DayOf(d * DAY + c) == d
  {
  }

  /** The search stops at the first hit, if there is one in reach. */
  lemma {:induction false} SearchHits(from: Instant, weekday: int, first: Instant, i: nat, hit: nat) returns (k: nat)
    requires i <= hit < STEPS && Hits(from, weekday, first + hit * DAY)
    requires forall j | 0 <= j < i :: !Hits(from, weekday, first + j * DAY)
    ensures k <= hit && Search(from, weekday, first + i * DAY, i) == first + k * DAY
    ensures Hits(from, weekday, first + k * DAY)
    ensures forall j | 0 <= j < k :: !Hits(from, weekday, first + j * DAY)
    decreases STEPS - i
  {
    if Hits(from, weekday, first + i * DAY) {
      k := i;
    } else {
      assert first + i * DAY + DAY == first + (i + 1) * DAY;
      k := SearchHits(from, weekday, first, i + 1, hit);
    }
  }

  /** Some day of the coming week is the wanted one, and its slot is later than now. */
  lemma HitWithinAWeek(from: Instant, weekday: int, c: int) returns (hit: nat)
    requires weekday == -1 || 0 <= weekday <= 6
    requires 0 <= c < DAY
    ensures hit < STEPS && Hits(from, weekday, DayOf(from) * DAY + c + hit * DAY)
  {
    var d := DayOf(from);
    hit := if weekday < 0 then 1 else (weekday - d - 2) % 7 + 1;
    assert DayOf(d * DAY + c + hit * DAY) == d + hit by {
      DayParts(d + hit, c);
      assert d * DAY + c + hit * DAY == (d + hit) * DAY + c;
    }
    if weekday >= 0 {
      ResidueHit(d, weekday);
    }
  }

  lemma ResidueHit(d: int, weekday: int)
    requires 0 <= weekday <= 6
    ensures (d + ((weekday - d - 2) % 7 + 1) + 1) % 7 == weekday
  {
    var x := weekday - d - 2;
    assert x == 7 * (x / 7) + x % 7;
    assert d + (x % 7 + 1) + 1 == weekday - 7 * (x / 7);
    assert (weekday - 7 * (x / 7)) % 7 == weekday;
  }

  /** The run the search finds: which day it is on and that no earlier day hits. */
  lemma WallClockSearch(sc: Schedule, from: Instant) returns (k: nat)
    requires Valid(sc) && !sc.kind.Interval?
    ensures var weekday := if sc.kind.Daily? then -1 else sc.weekday;
            var first := FirstCandidate(from, sc.timeOfDay);
            && k < STEPS
            && NextRun(sc, from) == first + k * DAY
            && Hits(from, weekday, first + k * DAY)
            && forall j | 0 <= j < k :: !Hits(from, weekday, first + j * DAY)
  {
    var weekday := if sc.kind.Daily? then -1 else sc.weekday;
    var hit := HitWithinAWeek(from, weekday, Clock(sc.timeOfDay));
    k := SearchHits(from, weekday, FirstCandidate(from, sc.timeOfDay), 0, hit);
  }

  /** The fallback after eight steps is never reached: the result is one of the eight candidates. */
  lemma FallbackUnreachable(sc: Schedule, from: Instant)
    requires Valid(sc) && !sc.kind.Interval?
    ensures exists k :: 0 <= k < STEPS && NextRun(sc, from) == FirstCandidate(from, sc.timeOfDay) + k * DAY
    ensures Fires(sc, NextRun(sc, from)) && NextRun(sc, from) > from
  {
    var k := WallClockSearch(sc, from);
    CandidateDay(from, sc.timeOfDay, k);
  }

  lemma CandidateDay(from: Instant, tod: string, k: int)
    requires ValidTime(tod)
    ensures var t := FirstCandidate(from, tod) + k * DAY;
            DayOf(t) == DayOf(from) + k && t == DayOf(t) * DAY + Clock(tod)
  {
    DayParts(DayOf(from) + k, Clock(tod));
    assert FirstCandidate(from, tod) + k * DAY == (DayOf(from) + k) * DAY + Clock(tod);
  }

  /** A firing instant is the candidate of its day. */
  lemma FiringIsCandidate(sc: Schedule, from: Instant, t: Instant)
    requires Valid(sc) && !sc.kind.Interval? && Fires(sc, t) && from < t
    ensures DayOf(from) <= DayOf(t)
    ensures t == FirstCandidate(from, sc.timeOfDay) + (DayOf(t) - DayOf(from)) * DAY
    ensures Hits(from, if sc.kind.Daily? then -1 else sc.weekday, t)
  {
    DayMonotone(from, t);
  }

  /** A wall-clock schedule next runs at its earliest instant strictly after `from`. */
  lemma NextRunIsLeast(sc: Schedule, from: Instant, t: Instant)
    requires Valid(sc) && !sc.kind.Interval? && Fires(sc, t) && from < t
    ensures from < NextRun(sc, from) <= t && Fires(sc, NextRun(sc, from))
  {
    FallbackUnreachable(sc, from);
    var first := FirstCandidate(from, sc.timeOfDay);
    var j := DayOf(t) - DayOf(from);
    FiringIsCandidate(sc, from, t);
    var k := WallClockSearch(sc, from);
    NoEarlierHit(from, if sc.kind.Daily? then -1 else sc.weekday, first, k, j);
    DaysMonotone(k, j);
  }

  /** A backup of every Sunday at 01:02 next runs on 2 January 2000 when it is noon the day before. */
  lemma KnownRun(sc: Schedule)
    requires Valid(sc) && sc.kind.Weekly? && sc.weekday == 0 && sc.timeOfDay == "01:02"
    ensures NextRun(sc, 730_119 * DAY + 12 * HOUR) == 730_120 * DAY + 3_720 * SECOND
  {
    KnownClocks();
    KnownWeekdays();
    var sunday := 730_120 * DAY + 3_720 * SECOND;
    DayParts(730_120, 3_720 * SECOND);
    DayParts(730_119, 12 * HOUR);
    NextRunIsLeast(sc, 730_119 * DAY + 12 * HOUR, sunday);
    var k := WallClockSearch(sc, 730_119 * DAY + 12 * HOUR);
    CandidateDay(730_119 * DAY + 12 * HOUR, sc.timeOfDay, k);
  }

  lemma NoEarlierHit(from: Instant, weekday: int, first: Instant, k: nat, j: nat)
    requires forall i | 0 <= i < k :: !Hits(from, weekday, first + i * DAY)
    requires Hits(from, weekday, first + j * DAY)
    ensures k <= j
  {
  }

  lemma DayMonotone(a: Instant, b: Instant)
    requires a <= b
    ensures DayOf(a) <= DayOf(b)
  {
  }

  lemma DaysMonotone(a: int, b: int)
    requires a <= b
    ensures a * DAY <= b * DAY
  {
  }

  /** Every valid schedule runs strictly later. */
  lemma NextRunIsLater(sc: Schedule, from: Instant)
    requires Valid(sc)
    ensures NextRun(sc, from) > from
  {
    if !sc.kind.Interval? {
      FallbackUnreachable(sc, from);
    }
  }

  // ---- advancing after a run ----------------------------------------------------------------

  /** The next run stored after an attempt that ended at `now`. */
  function Advanced(sc: Schedule, now: Instant): Instant
    requires Valid(sc)
  {
    var next := NextRun(sc, sc.next);
    if next > now then next else NextRun(sc, now)
  }

  /** A run always leaves the schedule not due, however large the backlog. */
  lemma AdvancedIsLater(sc: Schedule, now: Instant)
    requires Valid(sc)
    ensures Advanced(sc, now) > now
  {
    NextRunIsLater(sc, now);
  }

  /** Missed wall-clock slots coalesce: the next run is the first slot after now, as if none had been missed. */
  lemma BacklogCoalesces(sc: Schedule, now: Instant)
    requires Valid(sc) && !sc.kind.Interval? && sc.next <= now
    ensures Advanced(sc, now) == NextRun(sc, now)
  {
    FallbackUnreachable(sc, sc.next);
    FallbackUnreachable(sc, now);
    if NextRun(sc, sc.next) > now {
      NextRunIsLeast(sc, now, NextRun(sc, sc.next));
      NextRunIsLeast(sc, sc.next, NextRun(sc, now));
    }
  }

  /** An interval schedule keeps its phase while it keeps up, and restarts from now after a backlog. */
  lemma IntervalAdvance(sc: Schedule, now: Instant)
    requires Valid(sc) && sc.kind.Interval? && sc.next <= now
    ensures now < Advanced(sc, now) <= now + sc.intervalHours * HOUR
    ensures Advanced(sc, now) == sc.next + sc.intervalHours * HOUR <==> now < sc.next + sc.intervalHours * HOUR
  {
  }
}
