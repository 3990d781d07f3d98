/**
 * The calendar accessor of trayer.py: the `Calendar` object, which fetches
 * events from its source, filters and orders the upcoming ones, looks events
 * up by uid, remembers the uids the user dismissed, and resolves the URL to
 * open for an event. The fetch itself (`icalevents.events`) is the `fetched`
 * argument of each method: the events the source returns on that call.
 */
module CalendarAccessor {
  import opened Options
  import opened Events
  import opened Seqs
  import opened StartOrder
  import opened UrlSelection

  /** The look-ahead asked for: `very_soon` (ten minutes) or `soon` (twelve hours). */
  predicate InWindow(e: Event, now: Time, verySoon: bool)
  {
    if verySoon then VerySoon(e, now) else Soon(e, now)
  }

  /** The `keep` closure of `get_upcoming_events`. */
  predicate Keep(e: Event, now: Time, verySoon: bool, ignore: seq<string>)
  {
    !Ended(e, now) && InWindow(e, now, verySoon) && e.uid !in ignore
  }

  /** Both filters of `get_upcoming_events` together: not all-day, then `keep`. */
  predicate Eligible(e: Event, now: Time, verySoon: bool, ignore: seq<string>)
  {
    !e.allDay && Keep(e, now, verySoon, ignore)
  }

  function NotAllDay(): Event -> bool
  {
    (e: Event) => !e.allDay
  }

  function KeepFor(now: Time, verySoon: bool, ignore: seq<string>): Event -> bool
  {
    (e: Event) => Keep(e, now, verySoon, ignore)
  }

  function EligibleFor(now: Time, verySoon: bool, ignore: seq<string>): Event -> bool
  {
    (e: Event) => Eligible(e, now, verySoon, ignore)
  }

  /** The list `get_upcoming_events` builds before sorting. */
  function Kept(fetched: seq<Event>, now: Time, verySoon: bool, ignore: seq<string>): seq<Event>
  {
    Filter(KeepFor(now, verySoon, ignore), Filter(NotAllDay(), fetched))
  }

  /** What `get_upcoming_events` returns. */
  function Upcoming(fetched: seq<Event>, now: Time, verySoon: bool, ignore: seq<string>): seq<Event>
  {
    SortByStart(Kept(fetched, now, verySoon, ignore))
  }

  /** The two filters select exactly the eligible events, in source order. */
  lemma KeptIsEligible(fetched: seq<Event>, now: Time, verySoon: bool, ignore: seq<string>)
    ensures Kept(fetched, now, verySoon, ignore) == Filter(EligibleFor(now, verySoon, ignore), fetched)
  {
    FilterFilter(NotAllDay(), KeepFor(now, verySoon, ignore), EligibleFor(now, verySoon, ignore), fetched);
  }

  /**
   * The result of `get_upcoming_events` is the eligible source events, each
   * as often as the source lists it, ordered by start, with events that
   * start together in source order.
   */
  lemma UpcomingIsSortedEligible(fetched: seq<Event>, now: Time, verySoon: bool, ignore: seq<string>, t: Time)
    ensures var r := Upcoming(fetched, now, verySoon, ignore);
      var eligible := Filter(EligibleFor(now, verySoon, ignore), fetched);
      SortedByStart(r) && multiset(r) == multiset(eligible) && WithStart(r, t) == WithStart(eligible, t)
    ensures forall e :: multiset(Upcoming(fetched, now, verySoon, ignore))[e] ==
                        (if Eligible(e, now, verySoon, ignore) then multiset(fetched)[e] else 0)
  {
    KeptIsEligible(fetched, now, verySoon, ignore);
    FilterMultiplicity(EligibleFor(now, verySoon, ignore), fetched);
    SortByStartIsStable(Kept(fetched, now, verySoon, ignore), t);
  }

  /**
   * An event is returned exactly when the source has it and it is not all-day,
   * not ended, in the window and not ignored.
   */
  lemma UpcomingMembers(fetched: seq<Event>, now: Time, verySoon: bool, ignore: seq<string>, e: Event)
    ensures e in Upcoming(fetched, now, verySoon, ignore) <==>
      e in fetched && !e.allDay && !Ended(e, now) && InWindow(e, now, verySoon) && e.uid !in ignore
  {
    var k := Kept(fetched, now, verySoon, ignore);
    assert e in Upcoming(fetched, now, verySoon, ignore) <==> e in multiset(k);
  }

  lemma UpcomingExactlyEligible(fetched: seq<Event>, now: Time, verySoon: bool, ignore: seq<string>)
    ensures forall e :: e in Upcoming(fetched, now, verySoon, ignore) <==> e in fetched && Eligible(e, now, verySoon, ignore)
  {
    forall e {
      UpcomingMembers(fetched, now, verySoon, ignore, e);
    }
  }

  /** The ten-minute result is part of the twelve-hour result. */
  lemma VerySoonWithinSoon(fetched: seq<Event>, now: Time, ignore: seq<string>)
    ensures multiset(Upcoming(fetched, now, true, ignore)) <= multiset(Upcoming(fetched, now, false, ignore))
  {
    KeptIsEligible(fetched, now, true, ignore);
    KeptIsEligible(fetched, now, false, ignore);
    FilterStricter(EligibleFor(now, true, ignore), EligibleFor(now, false, ignore), fetched);
  }

  /** Only the set of ignored uids matters, not their order or repetitions. */
  lemma UpcomingDependsOnIgnoredSet(fetched: seq<Event>, now: Time, verySoon: bool, ignore1: seq<string>, ignore2: seq<string>)
    requires forall u :: u in ignore1 <==> u in ignore2
    ensures Upcoming(fetched, now, verySoon, ignore1) == Upcoming(fetched, now, verySoon, ignore2)
  {
    FilterCongruent(KeepFor(now, verySoon, ignore1), KeepFor(now, verySoon, ignore2), Filter(NotAllDay(), fetched));
  }

  /** After the uid is appended to the ignore list, no event with that uid is returned. */
  lemma IgnoredUidNotReturned(fetched: seq<Event>, now: Time, verySoon: bool, ignore: seq<string>, uid: string)
    ensures forall e :: e in Upcoming(fetched, now, verySoon, ignore + [uid]) ==> e.uid != uid
  {
    forall e | e in Upcoming(fetched, now, verySoon, ignore + [uid]) ensures e.uid != uid {
      UpcomingMembers(fetched, now, verySoon, ignore + [uid], e);
    }
  }

  /** Ignoring a uid removes the events with that uid and keeps all others. */
  lemma IgnoreRemovesOnlyThatUid(fetched: seq<Event>, now: Time, verySoon: bool, ignore: seq<string>, uid: string, e: Event)
    ensures e in Upcoming(fetched, now, verySoon, ignore + [uid]) <==>
      e in Upcoming(fetched, now, verySoon, ignore) && e.uid != uid
  {
    UpcomingMembers(fetched, now, verySoon, ignore + [uid], e);
    UpcomingMembers(fetched, now, verySoon, ignore, e);
  }

  /** Ignoring the same uid twice filters like ignoring it once. */
  lemma IgnoreTwiceIsIgnoreOnce(fetched: seq<Event>, now: Time, verySoon: bool, ignore: seq<string>, uid: string)
    ensures Upcoming(fetched, now, verySoon, ignore + [uid] + [uid]) == Upcoming(fetched, now, verySoon, ignore + [uid])
  {
    UpcomingDependsOnIgnoredSet(fetched, now, verySoon, ignore + [uid] + [uid], ignore + [uid]);
  }

  /**
   * Of a timed event starting in five minutes and an all-day event starting
   * at the same time, only the timed one is very soon.
   */
  lemma AllDayScenario(a: Event, b: Event, now: Time)
    requires a.start == now + 300 && a.end == now + 2100 && !a.allDay
    requires b.start == now + 300 && b.allDay
    ensures Upcoming([a, b], now, true, []) == [a]
  {
    assert [a, b][1..] == [b] && [b][1..] == [] && [a][1..] == [];
    assert NotAllDay()(a) && !NotAllDay()(b);
    assert Filter(NotAllDay(), [b]) == [];
    assert Filter(NotAllDay(), [a, b]) == [a];
    assert KeepFor(now, true, [])(a);
    assert Filter(KeepFor(now, true, []), [a]) == [a];
    assert [a][..0] == [];
  }

  /** What `open_event` ends up doing. */
  datatype OpenTarget =
    | Url(url: string)  // the opener is started with this URL
    | EventNotFound     // no event has the uid: the source fails reading `event.location`
    | NoTarget          // no URL in the event and no default URL: the source raises TypeError calling xdg-open with `None`

  class Calendar {
    var calendarUrl: Option<string>
    var calendarFile: Option<string>
    var defaultUrl: Option<string>
    var ignore: seq<string>

    constructor (url: Option<string>, file: Option<string>, defaultUrl: Option<string>)
      ensures calendarUrl == url && calendarFile == file && this.defaultUrl == defaultUrl
      ensures ignore == []
    {
      calendarUrl := url;
      calendarFile := file;
      this.defaultUrl := defaultUrl;
      ignore := [];
    }

    /** `get_upcoming_events`; `fetched` is what the calendar source returns on this call. */
    method GetUpcomingEvents(fetched: seq<Event>, now: Time, verySoon: bool) returns (events: seq<Event>)
      ensures events == Upcoming(fetched, now, verySoon, ignore)
      ensures SortedByStart(events)
      ensures forall e :: e in events <==> e in fetched && Eligible(e, now, verySoon, ignore)
    {
      var kept := Kept(fetched, now, verySoon, ignore);
      events := SortEvents(kept);
      UpcomingExactlyEligible(fetched, now, verySoon, ignore);
    }

    /** `get_event_by_uid`: the first fetched event with the uid, or `None`. */
    method GetEventByUid(fetched: seq<Event>, uid: string) returns (event: Option<Event>)
      ensures event.None? <==> forall e :: e in fetched ==> e.uid != uid
      ensures event.Some? ==> exists i :: 0 <= i < |fetched| && fetched[i] == event.value && event.value.uid == uid &&
                                         forall j :: 0 <= j < i ==> fetched[j].uid != uid
    {
      for i := 0 to |fetched|
        invariant forall j :: 0 <= j < i ==> fetched[j].uid != uid
      {
        if fetched[i].uid == uid {
          return Some(fetched[i]);
        }
      }
      return None;
    }

    /** `ignore_event`: append the uid to the ignore list; nothing else changes. */
    method IgnoreEvent(uid: string)
      modifies this`ignore
      ensures ignore == old(ignore) + [uid]
    {
      ignore := ignore + [uid];
    }

    /** `open_event`, up to the URL handed to the opener. */
    method OpenEvent(fetched: seq<Event>, uid: string) returns (target: OpenTarget)
      ensures target == EventNotFound <==> forall e :: e in fetched ==> e.uid != uid
      ensures target != EventNotFound ==>
        exists i :: 0 <= i < |fetched| && fetched[i].uid == uid && (forall j :: 0 <= j < i ==> fetched[j].uid != uid) &&
                    target == (match SelectUrl(fetched[i], defaultUrl) case Some(u) => Url(u) case None => NoTarget)
    {
      var found := GetEventByUid(fetched, uid);
      if found.None? {
        return EventNotFound;
      }
      var event := found.value;
      var url: Option<string> := None;
      url := FieldUrl(event.location);
      if url.None? {
        url := FieldUrl(event.description);
      }
      if url.None? {
        url := FieldUrl(event.summary);
      }
      if url.None? {
        url := defaultUrl;
      }
      target := match url case Some(u) => Url(u) case None => NoTarget;
    }
  }
}
