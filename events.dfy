/**
 * Calendar events and the four time-window predicates that trayer.py attaches
 * to the calendar library's event type (`ended`, `soon`, `very_soon`, `running`).
 * Times are whole seconds on one clock, and `now` is an explicit argument.
 */
module Events {
  import opened Options

  type Time = int

  /** timedelta(hours=12), the look-ahead of the tooltip summary. */
  const SoonWindow: int := 12 * 60 * 60
  /** timedelta(minutes=10), the look-ahead that raises a notification. */
  const VerySoonWindow: int := 10 * 60

  /** An event as the calendar source delivers it; immutable once fetched. */
  datatype Event = Event(
    uid: string,
    start: Time,
    end: Time,
    summary: Option<string>,
    location: Option<string>,
    description: Option<string>,
    allDay: bool)

  /** The calendar library's `time_left()`: how long until the event starts. */
  function TimeLeft(e: Event, now: Time): int
  {
    e.start - now
  }

  predicate Ended(e: Event, now: Time)
  {
    e.end < now
  }

  predicate Soon(e: Event, now: Time)
  {
    0 < TimeLeft(e, now) < SoonWindow
  }

  predicate VerySoon(e: Event, now: Time)
  {
    0 < TimeLeft(e, now) < VerySoonWindow
  }

  predicate Running(e: Event, now: Time)
  {
    e.start < now < e.end
  }

  /** Both comparisons are strict, so a running event has not ended. */
  lemma RunningIsNotEnded(e: Event, now: Time)
    ensures Running(e, now) ==> !Ended(e, now)
  {
  }

  /** The ten-minute window lies inside the twelve-hour window. */
  lemma VerySoonIsSoon(e: Event, now: Time)
    ensures VerySoon(e, now) ==> Soon(e, now)
  {
  }

  /**
   * An event in either window has not started yet, so it is not running; if
   * its end is not before its start it has not ended either.
   */
  lemma UpcomingIsNotStarted(e: Event, now: Time)
    ensures Soon(e, now) ==> !Running(e, now) && now < e.start
    ensures Soon(e, now) && e.start <= e.end ==> !Ended(e, now)
  {
  }
}
