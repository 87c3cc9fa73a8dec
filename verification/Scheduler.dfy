/** Schedules: parsing, the next instant, per-CR jitter. */
module Scheduler {
  import opened Basics
  import opened Rfc3339
  import opened Crd
  import opened JobName

  const MINIMUM_INTERVAL: int := 60 * SECOND

  /** A cron iterator, known only as "the least tick strictly after": every instant before a tick
      and not before the argument has that same tick as its next one. */
  type TickIterator = f: Instant -> Instant | IsTickIterator(f) witness a => a + 1

  ghost predicate IsTickIterator(f: Instant -> Instant) {
    && (forall a :: f(a) > a)
    && (forall a, b {:trigger f(a), f(b)} :: a <= b < f(a) ==> f(b) == f(a))
  }

  datatype ScheduleSpec = Cron(after: TickIterator) | Interval(duration: int)

  /** The libraries the operator calls: SHA-256, the cron parser and the duration parser. */
  datatype Lib = Lib(
    digest: Digest,
    parseCron: string -> Option<TickIterator>,
    parseDuration: string -> Option<int>)

  /** Number of whitespace-separated fields. */
  function FieldCount(s: string): nat {
    if s == [] then 0
    else FieldCount(s[1..]) +
         (if !IsWhitespace(s[0]) && (|s| == 1 || IsWhitespace(s[1])) then 1 else 0)
  }

  /** Fields are counted right: blank text has none, text without blanks is one, and what stands on the two
      sides of a whitespace character is counted separately. */
  lemma {:induction false} FieldCountJoins(a: string, gap: char, b: string)
    requires IsWhitespace(gap)
    ensures FieldCount(a + ([gap] + b)) == FieldCount(a) + FieldCount(b)
  {
    if a == [] {
      assert a + ([gap] + b) == [gap] + b && ([gap] + b)[1..] == b;
    } else {
      assert (a + ([gap] + b))[1..] == a[1..] + ([gap] + b);
      FieldCountJoins(a[1..], gap, b);
    }
  }

  lemma {:induction false} OneField(s: string)
    requires forall c | c in s :: !IsWhitespace(c)
    ensures FieldCount(s) == if s == [] then 0 else 1
  {
    if |s| > 1 {
      assert s[0] in s && s[1] in s;
      OneField(s[1..]);
    }
  }

  /** The seconds and the year are added around a five-field expression only: the library's parser is
      given seven fields or not called at all, and what it yields is the schedule. */
  lemma CronGetsSevenFields(lib: Lib, cron: string)
    ensures var parsed, given := ParseSchedule(lib, Schedule(Some(cron), None)), "0 " + Trim(cron) + " *";
            && (parsed.Ok? <==> FieldCount(Trim(cron)) == 5 && lib.parseCron(given).Some?)
            && (parsed.Ok? ==> FieldCount(given) == 7 && parsed.value == Cron(lib.parseCron(given).value))
            && (parsed.Err? ==> parsed.error == InvalidCron)
  {
    var trimmed := Trim(cron);
    assert "0 " + trimmed + " *" == "0" + (" " + (trimmed + (" " + "*")));
    FieldCountJoins("0", ' ', trimmed + (" " + "*"));
    FieldCountJoins(trimmed, ' ', "*");
    OneField("0");
    OneField("*");
  }

  /** An interval is accepted from one minute on, as the library reads it; exactly one of the two forms
      must be given. */
  lemma IntervalFromAMinute(lib: Lib, schedule: Schedule)
    ensures var parsed := ParseSchedule(lib, schedule);
            && (schedule.cron.Some? && schedule.interval.Some? <==> parsed == Err(BothSet))
            && (schedule.cron.None? && schedule.interval.None? <==> parsed == Err(NeitherSet))
            && forall text | schedule == Schedule(None, Some(text)) ::
                 match lib.parseDuration(text)
                 case None => parsed == Err(InvalidInterval)
                 case Some(d) =>
                   parsed == if d >= 60_000_000_000 then Ok(Interval(d)) else Err(IntervalBelowMinimum(d))
  {
  }

  function ParseSchedule(lib: Lib, schedule: Schedule): Result<ScheduleSpec, ScheduleError> {
    match (schedule.cron, schedule.interval)
    case (Some(_), Some(_)) => Err(BothSet)
    case (None, None) => Err(NeitherSet)
    case (Some(cron), None) =>
      var trimmed := Trim(cron);
      if FieldCount(trimmed) != 5 then Err(InvalidCron)
      else
        (match lib.parseCron("0 " + trimmed + " *")
         case None => Err(InvalidCron)
         case Some(ticks) => Ok(Cron(ticks)))
    case (None, Some(interval)) =>
      (match lib.parseDuration(interval)
       case None => Err(InvalidInterval)
       case Some(d) => if d < MINIMUM_INTERVAL then Err(IntervalBelowMinimum(d)) else Ok(Interval(d)))
  }

  function NextScheduledTime(schedule: ScheduleSpec, anchor: Instant, jitter: int): Instant {
    (match schedule
     case Cron(after) => after(anchor)
     case Interval(d) => anchor + d)
    + jitter
  }

  predicate IsScheduleDue(next: Instant, now: Instant) { now >= next }

  function JitterSeconds(digest: Digest, uid: string): (j: int)
    ensures 0 <= j < 60
  {
    (digest(uid)[0] * 256 + digest(uid)[1]) % 60
  }

  /** The jitter is what the first two bytes of the digest, read as one number, leave modulo 60. */
  lemma JitterIsResidue(digest: Digest, uid: string)
    ensures exists k: nat :: digest(uid)[0] * 256 + digest(uid)[1] == 60 * k + JitterSeconds(digest, uid)
  {
    var number := digest(uid)[0] * 256 + digest(uid)[1];
    assert number == 60 * (number / 60) + JitterSeconds(digest, uid);
  }

  /** A schedule that came out of the parser. */
  ghost predicate IsParsed(schedule: ScheduleSpec) {
    schedule.Interval? ==> schedule.duration >= MINIMUM_INTERVAL
  }

  lemma ParsedSchedule(lib: Lib, schedule: Schedule)
    requires ParseSchedule(lib, schedule).Ok?
    ensures IsParsed(ParseSchedule(lib, schedule).value)
    ensures schedule.cron.Some? <==> schedule.interval.None?
  {
  }

  ghost predicate IsTick(after: TickIterator, n: Instant) { exists a :: after(a) == n }

  /** The instant a schedule names after the anchor, before jitter: the least tick strictly after it, or
      the anchor and one interval. */
  ghost predicate IsNextTick(schedule: ScheduleSpec, anchor: Instant, n: Instant) {
    match schedule
    case Cron(after) => n > anchor && IsTick(after, n) && forall a :: after(a) > anchor ==> n <= after(a)
    case Interval(d) => n == anchor + d
  }

  /** No tick is skipped: the next scheduled time is the next tick and the jitter. */
  lemma NextIsLeastTick(schedule: ScheduleSpec, anchor: Instant, jitter: int, n: Instant)
    ensures IsNextTick(schedule, anchor, n) <==> n + jitter == NextScheduledTime(schedule, anchor, jitter)
  {
    if schedule.Cron? {
      var after := schedule.after;
      assert IsTick(after, after(anchor));
      forall a | after(a) > anchor ensures after(anchor) <= after(a) {
        if a > anchor { assert after(a) > a; }
      }
      if IsNextTick(schedule, anchor, n) {
        var a :| after(a) == n;
      }
    }
  }

  /** The next time is after the anchor, and a later anchor never brings it forward. */
  lemma NextIsMonotone(schedule: ScheduleSpec, a: Instant, b: Instant, jitter: int)
    requires IsParsed(schedule) && jitter >= 0 && a <= b
    ensures a < NextScheduledTime(schedule, a, jitter) <= NextScheduledTime(schedule, b, jitter)
  {
    if schedule.Cron? && schedule.after(a) <= b {
      assert schedule.after(b) > b;
    }
  }
}
