/**
 * The order `events.sort()` puts events in: the calendar library compares
 * events by start, and Python's list sort is stable, so events with equal
 * starts keep their relative order.
 */
module StartOrder {
  import opened Events

  predicate SortedByStart(s: seq<Event>)
  {
    forall i, j :: 0 <= i < j < |s| ==> s[i].start <= s[j].start
  }

  /** The events of `s` that start at `t`, in the order of `s`. */
  function WithStart(s: seq<Event>, t: Time): seq<Event>
  {
    if s == [] then []
    else (if s[0].start == t then [s[0]] else []) + WithStart(s[1..], t)
  }

  lemma {:induction false} WithStartAppend(a: seq<Event>, b: seq<Event>, t: Time)
    ensures WithStart(a + b, t) == WithStart(a, t) + WithStart(b, t)
  {
    if a == [] {
      assert a + b == b;
    } else {
      assert (a + b)[0] == a[0] && (a + b)[1..] == a[1..] + b;
      WithStartAppend(a[1..], b, t);
    }
  }

  /** Insert `x` into sorted `s` after every event that does not start later than `x`. */
  function Insert(s: seq<Event>, x: Event): (r: seq<Event>)
    requires SortedByStart(s)
    ensures SortedByStart(r)
    ensures multiset(r) == multiset(s) + multiset{x}
  {
    if s == [] then [x]
    else if x.start < s[0].start then [x] + s
    else
      assert s == [s[0]] + s[1..];
      var rest := Insert(s[1..], x);
      InsertAfterHead(s[0], s[1..], x, rest);
      [s[0]] + rest
  }

  /** `head` may precede the result of inserting `x` into the sorted events after it. */
  lemma InsertAfterHead(head: Event, tail: seq<Event>, x: Event, rest: seq<Event>)
    requires SortedByStart([head] + tail) && SortedByStart(rest)
    requires head.start <= x.start
    requires multiset(rest) == multiset(tail) + multiset{x}
    ensures SortedByStart([head] + rest)
  {
    var r := [head] + rest;
    forall i, j | 0 <= i < j < |r| ensures r[i].start <= r[j].start {
      if i == 0 {
        var e := rest[j - 1];
        assert r[i] == head && r[j] == e;
        assert e in multiset(rest);
        if e != x {
          assert e in multiset(tail);
          var k :| 0 <= k < |tail| && tail[k] == e;
          assert ([head] + tail)[0] == head;
          assert ([head] + tail)[k + 1] == e;
        }
      } else {
        assert r[i] == rest[i - 1] && r[j] == rest[j - 1];
      }
    }
  }

  /** Stable sort by start: insert the events one by one, in their order. */
  function SortByStart(s: seq<Event>): (r: seq<Event>)
    ensures SortedByStart(r)
    ensures multiset(r) == multiset(s)
  {
    if s == [] then []
    else
      assert s == s[..|s| - 1] + [s[|s| - 1]];
      Insert(SortByStart(s[..|s| - 1]), s[|s| - 1])
  }

  lemma {:induction false} NoneStartAt(s: seq<Event>, t: Time)
    requires forall e :: e in s ==> e.start != t
    ensures WithStart(s, t) == []
  {
    if s != [] {
      NoneStartAt(s[1..], t);
    }
  }

  /** Inserting `x` adds it after the events of `s` with the same start. */
  lemma {:induction false} InsertKeepsTies(s: seq<Event>, x: Event, t: Time)
    requires SortedByStart(s)
    ensures WithStart(Insert(s, x), t) == WithStart(s, t) + (if x.start == t then [x] else [])
  {
    if s == [] {
      assert Insert(s, x) == [x] && [x][1..] == [];
    } else if x.start < s[0].start {
      var r := [x] + s;
      assert Insert(s, x) == r && r[0] == x && r[1..] == s;
      assert WithStart(r, t) == (if x.start == t then [x] else []) + WithStart(s, t);
      if x.start == t {
        NoneStartAt(s, t);
      }
    } else {
      var rest := Insert(s[1..], x);
      InsertKeepsTies(s[1..], x, t);
      var r := [s[0]] + rest;
      assert Insert(s, x) == r && r[0] == s[0] && r[1..] == rest;
      assert WithStart(r, t) == (if s[0].start == t then [s[0]] else []) + WithStart(rest, t);
      assert WithStart(s, t) == (if s[0].start == t then [s[0]] else []) + WithStart(s[1..], t);
    }
  }

  /** The sort is stable: events with equal starts keep their relative order. */
  lemma {:induction false} SortByStartIsStable(s: seq<Event>, t: Time)
    ensures WithStart(SortByStart(s), t) == WithStart(s, t)
  {
    if s != [] {
      var init, last := s[..|s| - 1], s[|s| - 1];
      assert s == init + [last];
      SortByStartIsStable(init, t);
      InsertKeepsTies(SortByStart(init), last, t);
      WithStartAppend(init, [last], t);
    }
  }

  /**
   * `events.sort()`: each event is inserted, in list order, after the events
   * already placed that do not start later than it.
   */
  method SortEvents(events: seq<Event>) returns (sorted: seq<Event>)
    ensures sorted == SortByStart(events)
    ensures SortedByStart(sorted) && multiset(sorted) == multiset(events)
  {
    sorted := [];
    var i := 0;
    while i < |events|
      invariant 0 <= i <= |events|
      invariant sorted == SortByStart(events[..i])
    {
      ghost var prefix := events[..i + 1];
      assert prefix[..|prefix| - 1] == events[..i] && prefix[|prefix| - 1] == events[i];
      assert SortByStart(prefix) == Insert(SortByStart(events[..i]), events[i]);
      sorted := Insert(sorted, events[i]);
      i := i + 1;
    }
    assert events[..i] == events;
  }
}
