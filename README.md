# meetingalarm calendar accessor, in Dafny

meetingalarm is a tray utility that polls a calendar, lists the meetings of
the next twelve hours in a tooltip, and raises a desktop notification for a
meeting that starts within ten minutes. The notification has two actions.
"Open" starts the default URL handler on a URL taken from the event. "Dismiss"
adds the event's uid to an ignore list.

This project models the one part of `src/meetingalarm/trayer.py` that makes
decisions:

- the four event-window predicates `ended`, `soon`, `very_soon` and `running`
  (module `Events`, file `events.dfy`);
- the `Calendar` object with its ignore list and its methods
  `get_upcoming_events`, `get_event_by_uid`, `ignore_event` and `open_event`
  (module `CalendarAccessor`, file `calendar.dfy`);
- the stable sort by start that `events.sort()` performs (module `StartOrder`,
  file `start_order.dfy`);
- the URL that `open_event` hands to the opener (module `UrlSelection`, file
  `url_selection.dfy`). It is modelled as a literal matcher for the pattern
  `^.*(http(s)?://[^ ]*).*$`, in the regular-expression engine's
  backtracking order;
- the notify / do-not-notify decision of `do_report` (module `Report`, file
  `report.dfy`).

`seqs.dfy` holds Python's `filter` and `options.dfy` holds `None`-or-value.

Modelling choices:

- Times are whole seconds on one clock. `time_left()` is `start - now`. The
  thresholds are 43200 s (12 hours) and 600 s (10 minutes). All comparisons are
  strict, as in the source.
- The calendar fetch (`icalevents.events(...)`) is a `fetched: seq<Event>`
  argument of each `Calendar` method. The clock is a `now` argument.
- Location, description and summary are `Option<string>`. The source only
  tests their truth value, so `None` and the empty string behave alike.
- Newlines are handled exactly as the pattern handles them; no field is
  required to be a single line. For a single-line field, the lemma
  `OneLineRegexUrl` proves the simple reading. The URL is the LAST
  `http://` or `https://` in the field, and it runs up to the next space. For
  multi-line text the model keeps the pattern's own behaviour, and
  `RegexUrlExact` states the result for every field. In particular:
  - `.` does not cross a line break, so a URL that starts after the first line
    break is never found (`UrlAfterFirstLineIsMissed`);
  - `[^ ]` does cross line breaks, so a URL runs on into the next line up to a
    space;
  - a URL on the first line is lost when a space follows it and a line break
    that is not the last character comes later: `[^ ]*` stops at the space,
    and the trailing `.*$` cannot cross that line break, so the whole pattern
    fails (for example `a http://x b` followed by a newline and `c`).
- `open_event` for a uid that no event has fails in the source, because
  `event.location` is read on `None`. The model returns `EventNotFound` instead.
  When no field yields a URL and there is no default URL, the source passes
  `None` as the URL argument of `subprocess.call` (trayer.py:133), which raises
  `TypeError` before any process starts; the exception escapes `open_event`.
  The model returns `NoTarget` instead.

Two facts about the code are worth stating outright:

- The docstring of `open_event` (trayer.py:109-110) does not say which URL
  is taken when a field holds several. The pattern's greedy `^.*` takes the LAST
  `http://` or `https://` on the line, not the first.
- The URL is `[^ ]*` (trayer.py:116). It ends only at a space character; tabs
  and line breaks do not end it.

## Model

| member | source | states |
|---|---|---|
| `Events.Ended` | src/meetingalarm/trayer.py:34-36 | no contract: the event ends before `now`; `RunningIsNotEnded` and `UpcomingIsNotStarted` state its properties |
| `Events.Soon` | src/meetingalarm/trayer.py:38-40 | no contract: 0 < start - now < 12 h; `VerySoonIsSoon` and `UpcomingIsNotStarted` state its properties |
| `Events.VerySoon` | src/meetingalarm/trayer.py:42-44 | no contract: 0 < start - now < 10 min; `VerySoonIsSoon` states its properties |
| `Events.Running` | src/meetingalarm/trayer.py:46-48 | no contract: start < now < end; `RunningIsNotEnded` states its properties |
| `Events.RunningIsNotEnded` | src/meetingalarm/trayer.py:34-48 | a running event (start < now < end) is never ended (end < now) |
| `Events.VerySoonIsSoon` | src/meetingalarm/trayer.py:38-44 | starting within (0, 10 min) implies starting within (0, 12 h) |
| `Events.UpcomingIsNotStarted` | src/meetingalarm/trayer.py:38-48 | an event in the twelve-hour window is not running; if its end is not before its start, it has not ended either |
| `Seqs.Filter` | src/meetingalarm/trayer.py:88 | `filter` keeps exactly the elements of the list that pass the test |
| `Seqs.FilterMultiplicity` | src/meetingalarm/trayer.py:88 | `filter` keeps every accepted element exactly as often as the list holds it and drops every other one |
| `StartOrder.Insert` | src/meetingalarm/trayer.py:91 | inserting into a start-sorted list keeps it sorted and adds exactly that event |
| `StartOrder.SortByStart` | src/meetingalarm/trayer.py:91 | the sorted list is ordered by start and is a permutation of the input |
| `StartOrder.SortByStartIsStable` | src/meetingalarm/trayer.py:91 | the sort is stable: for every start time, the events with that start keep their input order |
| `StartOrder.SortEvents` | src/meetingalarm/trayer.py:91 | the insertion loop computes the stable sort by start, so its result is sorted and a permutation of the input |
| `CalendarAccessor.Keep` | src/meetingalarm/trayer.py:74-86 | no contract: the `keep` closure (not ended, in the ten-minute or twelve-hour window, uid not ignored); `UpcomingMembers` and `KeptIsEligible` state its properties |
| `CalendarAccessor.Upcoming` | src/meetingalarm/trayer.py:66-93 | no contract: what `get_upcoming_events` returns, the stable sort by start of the two filters; `UpcomingIsSortedEligible` and `UpcomingExactlyEligible` state its properties |
| `CalendarAccessor.KeptIsEligible` | src/meetingalarm/trayer.py:72-88 | the all-day filter followed by `keep` selects exactly the eligible events, in source order |
| `CalendarAccessor.UpcomingIsSortedEligible` | src/meetingalarm/trayer.py:88-93 | the result is sorted by start, is a permutation of exactly the eligible source events (each eligible event as often as the source lists it, every other event never), and keeps the source order among events with equal starts |
| `CalendarAccessor.UpcomingMembers` | src/meetingalarm/trayer.py:72-86 | an event is returned if and only if the source has it and it is not all-day, not ended, inside the requested window and its uid is not ignored |
| `CalendarAccessor.UpcomingExactlyEligible` | src/meetingalarm/trayer.py:72-86 | the same if-and-only-if, for all events at once |
| `CalendarAccessor.VerySoonWithinSoon` | src/meetingalarm/trayer.py:76-86 | the ten-minute result is a sub-multiset of the twelve-hour result for the same source, clock and ignore list |
| `CalendarAccessor.UpcomingDependsOnIgnoredSet` | src/meetingalarm/trayer.py:80-85 | only the set of ignored uids matters, not their order or repetitions |
| `CalendarAccessor.IgnoredUidNotReturned` | src/meetingalarm/trayer.py:104-106 | once a uid is appended to the ignore list, no event with that uid is returned |
| `CalendarAccessor.IgnoreRemovesOnlyThatUid` | src/meetingalarm/trayer.py:104-106 | ignoring a uid removes the events with that uid and keeps every other event that was returned before |
| `CalendarAccessor.IgnoreTwiceIsIgnoreOnce` | src/meetingalarm/trayer.py:104-106 | ignoring the same uid twice filters exactly like ignoring it once |
| `CalendarAccessor.AllDayScenario` | src/meetingalarm/trayer.py:70-72 | a timed event starting in 5 minutes is very soon; an all-day event at the same start is dropped |
| `CalendarAccessor.Calendar.constructor` | src/meetingalarm/trayer.py:59-64 | the calendar keeps its url, file and default URL, and starts with an empty ignore list |
| `CalendarAccessor.Calendar.GetUpcomingEvents` | src/meetingalarm/trayer.py:66-93 | the result is the stable sort by start of the eligible fetched events: sorted, and containing exactly the eligible ones |
| `CalendarAccessor.Calendar.GetEventByUid` | src/meetingalarm/trayer.py:95-102 | returns the first fetched event in source order with the uid; returns None exactly when no fetched event has that uid |
| `CalendarAccessor.Calendar.IgnoreEvent` | src/meetingalarm/trayer.py:104-106 | appends the uid to the ignore list and changes no other field |
| `CalendarAccessor.Calendar.OpenEvent` | src/meetingalarm/trayer.py:108-133 | the outcome is EventNotFound exactly when no fetched event has the uid; otherwise it is the URL selected from the first event with that uid, or NoTarget |
| `UrlSelection.FirstAtOrAfter` | src/meetingalarm/trayer.py:116 | the first occurrence of a character at or after a position, or the end; with `'\n'` it is the reach of `.`, with `' '` the reach of `[^ ]` |
| `UrlSelection.DotStarAtEnd` | src/meetingalarm/trayer.py:116 | no contract: whether the trailing `.*$` matches from an index (no newline up to the end, or only a final one); `DotStarAtEndLater` and `OneLineRegexUrl` state its properties |
| `UrlSelection.DotStarAtEndLater` | src/meetingalarm/trayer.py:116 | if the trailing `.*$` matches from an index, it matches from every later index |
| `UrlSelection.MatchRun` | src/meetingalarm/trayer.py:116 | backtracking `[^ ]*` ends group 1 at the LARGEST point from which `.*$` matches, and finds nothing only when no point in the run has that property |
| `UrlSelection.MatchAfterHttp` | src/meetingalarm/trayer.py:116 | a match of `://[^ ]*.*$` starts with `://` and ends group 1 after a run without spaces |
| `UrlSelection.MatchGroupAt` | src/meetingalarm/trayer.py:116 | a match of the group at a position starts with `http://` or `https://` and contains no space |
| `UrlSelection.MatchPrefix` | src/meetingalarm/trayer.py:116 | backtracking `^.*` chooses the LARGEST prefix end at which the group matches, giving a span with the URL shape, and finds nothing only when the group matches at no prefix end |
| `UrlSelection.RegexUrl` | src/meetingalarm/trayer.py:116-118 | a URL split out of a field starts with `http://` or `https://`, has no space, is a substring of the field, and the field contains `http` |
| `UrlSelection.OneLineRegexUrl` | src/meetingalarm/trayer.py:116-118 | in a single-line field, a URL is found iff some `http(s)://` occurs; it is the last occurrence, up to the next space |
| `UrlSelection.UrlAfterFirstLineIsMissed` | src/meetingalarm/trayer.py:116 | a URL whose scheme starts after the first line break is never found |
| `UrlSelection.MatchRunAllOrNothing` | src/meetingalarm/trayer.py:116 | backtracking inside `[^ ]*` never helps: the run matches in full or the rest of the pattern fails |
| `UrlSelection.MatchGroupAtExact` | src/meetingalarm/trayer.py:116 | the group matches at a position exactly when an `http(s)://` scheme starts there and `.*$` matches after the full space-free run; group 1 then ends at the next space |
| `UrlSelection.RegexUrlExact` | src/meetingalarm/trayer.py:116-118 | for any field, line breaks included: the URL is the run up to the next space from the last scheme on the first line after which `.*$` can match; no URL exactly when there is no such scheme |
| `UrlSelection.FieldUrl` | src/meetingalarm/trayer.py:115-118 | a field yields a URL only if it is present, and then the URL is a well-formed substring of it |
| `UrlSelection.SelectUrl` | src/meetingalarm/trayer.py:113-131 | no contract: location, then description, then summary, then the default URL; `FieldPrecedence`, `SelectedUrlOrigin` and `NoHttpMeansDefault` state its properties |
| `UrlSelection.HttpTestIsRedundant` | src/meetingalarm/trayer.py:115-116 | the `'http' in field` test never changes the outcome of the pattern |
| `UrlSelection.SelectedUrlOrigin` | src/meetingalarm/trayer.py:113-131 | the target is the default URL, or a well-formed URL contained in location, description or summary |
| `UrlSelection.NoHttpMeansDefault` | src/meetingalarm/trayer.py:115-131 | when no field contains `http`, the default URL is used |
| `UrlSelection.FieldPrecedence` | src/meetingalarm/trayer.py:113-131 | the result is the URL of the first field, in the order location, description, summary, that yields one, whatever the later fields and the default hold; when no field yields a URL, the result is the default URL |
| `UrlSelection.LocationExample` | src/meetingalarm/trayer.py:115-118 | location "see http://example.com/x for info" gives "http://example.com/x" |
| `UrlSelection.FallbackExample` | src/meetingalarm/trayer.py:130-131 | with no URL in any field, the default "http://fallback" is used |
| `Report.ReportDecision` | src/meetingalarm/trayer.py:287-314 | no contract: the notify / do-not-notify decision on the very-soon list; `NotifiesMostImminent` states its properties |
| `Report.NotifiesMostImminent` | src/meetingalarm/trayer.py:287-314 | on the very-soon list, a notification is raised iff reports are on and some event is eligible; it names an eligible event that starts no later than any other eligible one; it carries the actions iff the server has the "actions" capability |

## Left out

- Qt tray icon, menu, tooltip text, stylesheet and the toggle signal (trayer.py:135-272): user interface only. The tooltip calls `get_upcoming_events()`, and that call is modelled.
- notify2 initialisation, `Notification.update`/`show`, and the `report_action_cb` dispatch of "open" and "dismiss" (trayer.py:250-257, 274-280, 300-315): these belong to a foreign notification service. Only the decision of what to notify is modelled.
- The minutes in the notification title and its `strftime` text (trayer.py:301-308): floating point and formatting.
- `subprocess.call(["xdg-open", url])` (trayer.py:133): process spawning. `OpenEvent` returns the URL that would be passed.
- `icalevents.events(...)`, iCalendar parsing, `icalparser.now()`, `time_left()` and `Event.__lt__`: an external library. They become a `seq<Event>` argument, a `now` argument, `start - now` and comparison by start. `ended()` and `time_left()` each read the clock in the source; the model uses one `now` for both.
- Errors raised by the fetch propagate to the caller in the source. The model has no failing fetch.
- Comparison of date-only and date-time values, which is why all-day events are filtered first: all times are integers here.
- `main()`: argument parsing, logging and the wait for a system tray. `setup.py` is not part of this model.
- `CalendarAccessor.Calendar.GetUpcomingEvents`: the list is sorted by inserting each kept event into a new sorted sequence. The in-place update of the Python list, and any aliasing of it, are not modelled.
