/**
 * The decision `MeetingAlarmTrayApp.do_report` takes after refreshing the
 * tooltip: whether to show a notification, for which event, and whether to
 * attach the "open" and "dismiss" actions. Showing it, its text and the
 * action callbacks belong to the notification service.
 */
module Report {
  import opened Options
  import opened Events
  import opened CalendarAccessor

  /** A notification about the event `uid`, with or without the two actions. */
  datatype Notification = Notification(uid: string, withActions: bool)

  /**
   * Nothing when reports are switched off or no event is very soon;
   * otherwise the first very-soon event, with actions exactly when the
   * notification server advertises the "actions" capability.
   */
  function ReportDecision(showReport: bool, verySoonEvents: seq<Event>, capabilities: set<string>): Option<Notification>
  {
    if !showReport || |verySoonEvents| == 0 then None
    else Some(Notification(verySoonEvents[0].uid, "actions" in capabilities))
  }

  /**
   * Fed with `get_upcoming_events(very_soon=True)`, the report notifies
   * exactly when reports are on and some eligible event starts within ten
   * minutes, and then about one that starts no later than any other.
   */
  lemma NotifiesMostImminent(fetched: seq<Event>, now: Time, ignore: seq<string>, showReport: bool, capabilities: set<string>)
    ensures var n := ReportDecision(showReport, Upcoming(fetched, now, true, ignore), capabilities);
      (n.Some? <==> showReport && exists e :: e in fetched && Eligible(e, now, true, ignore)) &&
      (n.Some? ==> n.value.withActions == ("actions" in capabilities)) &&
      (n.Some? ==>
         exists e :: e in fetched && Eligible(e, now, true, ignore) && e.uid == n.value.uid &&
                     forall f :: f in fetched && Eligible(f, now, true, ignore) ==> e.start <= f.start)
  {
    var r := Upcoming(fetched, now, true, ignore);
    UpcomingExactlyEligible(fetched, now, true, ignore);
    if |r| > 0 {
      assert r[0] in r;
      forall f | f in fetched && Eligible(f, now, true, ignore) ensures r[0].start <= f.start {
        assert f in r;
        var j :| 0 <= j < |r| && r[j] == f;
      }
    }
  }
}
