/**
 * How `open_event` picks the URL it hands to the opener: each of location,
 * description and summary in turn is matched against the pattern
 * `^.*(http(s)?://[^ ]*).*$` (no flags), and the first field whose match
 * succeeds supplies group 1; otherwise the calendar's default URL is used.
 *
 * The matcher below follows the regular-expression engine's backtracking
 * order literally: `^.*` starts with the longest prefix free of newlines and
 * gives back one character at a time; `(s)?` tries the `s` first; `[^ ]*`
 * starts with the longest run free of spaces (it may cross newlines) and
 * gives back one character at a time; `.*$` succeeds when the rest of the
 * text, up to an optional final newline, holds no newline.
 */
module UrlSelection {
  import opened Options
  import opened Events

  /** `t` occurs in `s` at index `k`. */
  predicate OccursAt(s: string, t: string, k: nat)
  {
    k + |t| <= |s| && s[k..k + |t|] == t
  }

  /** Python's `t in s` on strings. */
  predicate Contains(s: string, t: string)
  {
    exists k :: 0 <= k <= |s| && OccursAt(s, t, k)
  }

  /** The literal `http` at index `k`. */
  predicate HttpAt(s: string, k: nat)
  {
    k + 4 <= |s| && s[k] == 'h' && s[k + 1] == 't' && s[k + 2] == 't' && s[k + 3] == 'p'
  }

  /** The literal `://` at index `k`. */
  predicate SeparatorAt(s: string, k: nat)
  {
    k + 3 <= |s| && s[k] == ':' && s[k + 1] == '/' && s[k + 2] == '/'
  }

  /** An `http://` or `https://` scheme starts at index `k` of `s`. */
  predicate UrlStartAt(s: string, k: nat)
  {
    HttpAt(s, k) && (SeparatorAt(s, k + 4) || (k + 4 < |s| && s[k + 4] == 's' && SeparatorAt(s, k + 5)))
  }

  /** The shape of every URL the pattern captures. */
  predicate IsHttpUrl(u: string)
  {
    UrlStartAt(u, 0) && ' ' !in u
  }

  /** `s[p..q]` is a capturable URL: a scheme at `p`, then no space up to `q`. */
  predicate UrlSpan(s: string, p: nat, q: nat)
  {
    p <= q <= |s| && UrlStartAt(s[..q], p) && forall k :: p <= k < q ==> s[k] != ' '
  }

  /** The first occurrence of `c` at or after `i`, or the end of `s`. */
  function FirstAtOrAfter(s: string, i: nat, c: char): (j: nat)
    requires i <= |s|
    ensures i <= j <= |s|
    ensures forall k :: i <= k < j ==> s[k] != c
    ensures j < |s| ==> s[j] == c
    decreases |s| - i
  {
    if i == |s| || s[i] == c then i else FirstAtOrAfter(s, i + 1, c)
  }

  /** How far `.` can run from `i`: up to the first newline. */
  function LineEnd(s: string, i: nat): nat
    requires i <= |s|
  {
    FirstAtOrAfter(s, i, '\n')
  }

  /** How far `[^ ]` can run from `i`: up to the first space (a newline does not stop it). */
  function RunEnd(s: string, i: nat): nat
    requires i <= |s|
  {
    FirstAtOrAfter(s, i, ' ')
  }

  /** Whether `.*$` matches from index `q`. */
  predicate DotStarAtEnd(s: string, q: nat)
    requires q <= |s|
    decreases |s| - q
  {
    if q == |s| then true
    else if s[q] == '\n' then q == |s| - 1
    else DotStarAtEnd(s, q + 1)
  }

  /**
   * `[^ ]*.*$` once the run has been taken up to `q`: give back characters down
   * to `lo`. The result is the largest end from which `.*$` matches, if any.
   */
  function MatchRun(s: string, lo: nat, q: nat): (r: Option<nat>)
    requires lo <= q <= |s|
    ensures r.Some? ==> lo <= r.value <= q && DotStarAtEnd(s, r.value)
    ensures r.Some? ==> forall q' :: r.value < q' <= q ==> !DotStarAtEnd(s, q')
    ensures r.None? ==> forall q' :: lo <= q' <= q ==> !DotStarAtEnd(s, q')
    decreases q - lo
  {
    if DotStarAtEnd(s, q) then Some(q)
    else if q == lo then None
    else MatchRun(s, lo, q - 1)
  }

  /** `://[^ ]*.*$` from index `i`; the end of group 1 when it matches. */
  function MatchAfterHttp(s: string, i: nat): (r: Option<nat>)
    requires i <= |s|
    ensures r.Some? ==> SeparatorAt(s, i) && i + 3 <= r.value <= |s|
    ensures r.Some? ==> DotStarAtEnd(s, r.value) && forall k :: i + 3 <= k < r.value ==> s[k] != ' '
  {
    if SeparatorAt(s, i) then MatchRun(s, i + 3, RunEnd(s, i + 3)) else None
  }

  /** `(http(s)?://[^ ]*).*$` from index `p`; the end of group 1 when it matches. */
  function MatchGroupAt(s: string, p: nat): (r: Option<nat>)
    requires p <= |s|
    ensures r.Some? ==> UrlSpan(s, p, r.value) && DotStarAtEnd(s, r.value)
  {
    if !HttpAt(s, p) then None
    else
      var withS := if p + 4 < |s| && s[p + 4] == 's' then MatchAfterHttp(s, p + 5) else None;
      if withS.Some? then withS else MatchAfterHttp(s, p + 4)
  }

  /**
   * `^.*` followed by the group: the prefix ends at `p`, then at `p - 1`, ... down
   * to 0. The result is the largest prefix end at which the group matches, if any.
   */
  function MatchPrefix(s: string, p: nat): (r: Option<(nat, nat)>)
    requires p <= |s|
    ensures r.Some? ==> r.value.0 <= p && UrlSpan(s, r.value.0, r.value.1)
    ensures r.Some? ==> MatchGroupAt(s, r.value.0) == Some(r.value.1) &&
                        forall p' :: r.value.0 < p' <= p ==> MatchGroupAt(s, p').None?
    ensures r.None? ==> forall p' :: 0 <= p' <= p ==> MatchGroupAt(s, p').None?
    decreases p
  {
    match MatchGroupAt(s, p)
    case Some(q) => Some((p, q))
    case None => if p == 0 then None else MatchPrefix(s, p - 1)
  }

  /**
   * `re.split(pattern, s)[1]` when the split produced more than one piece,
   * that is group 1 of the match anchored at the start of `s`.
   */
  function RegexUrl(s: string): (r: Option<string>)
    ensures r.Some? ==> IsHttpUrl(r.value) && Contains(s, r.value) && ContainsHttp(s)
  {
    match MatchPrefix(s, LineEnd(s, 0))
    case Some((p, q)) =>
      SpanIsUrl(s, p, q);
      Some(s[p..q])
    case None => None
  }

  /** Python's `'http' in s`. */
  predicate ContainsHttp(s: string)
  {
    exists k :: 0 <= k <= |s| && HttpAt(s, k)
  }

  lemma SpanIsUrl(s: string, p: nat, q: nat)
    requires UrlSpan(s, p, q)
    ensures IsHttpUrl(s[p..q]) && OccursAt(s, s[p..q], p) && HttpAt(s, p)
  {
    var u := s[p..q];
    assert forall k :: 0 <= k < |u| ==> u[k] == s[..q][p + k] == s[p + k];
    assert UrlStartAt(u, 0);
  }

  lemma UrlStartInPrefix(s: string, q: nat, p: nat)
    requires q <= |s| && UrlStartAt(s[..q], p)
    ensures UrlStartAt(s, p)
  {
    assert forall k :: 0 <= k < q ==> s[..q][k] == s[k];
  }

  /** In text without newlines `.*$` matches from anywhere. */
  lemma {:induction false} DotStarAtEndOneLine(s: string, q: nat)
    requires '\n' !in s && q <= |s|
    ensures DotStarAtEnd(s, q)
    decreases |s| - q
  {
    if q < |s| {
      DotStarAtEndOneLine(s, q + 1);
    }
  }

  /** Stepping over characters that are not spaces does not move the end of the run. */
  lemma {:induction false} RunEndSkip(s: string, i: nat, j: nat)
    requires i <= j <= |s| && forall k :: i <= k < j ==> s[k] != ' '
    ensures RunEnd(s, i) == RunEnd(s, j)
    decreases j - i
  {
    if i < j {
      RunEndSkip(s, i + 1, j);
    }
  }

  /** On one line, the group matches at `p` exactly when a scheme starts there, and runs to the next space. */
  lemma OneLineGroupAt(s: string, p: nat)
    requires '\n' !in s && p <= |s|
    ensures MatchGroupAt(s, p).Some? <==> UrlStartAt(s, p)
    ensures UrlStartAt(s, p) ==> MatchGroupAt(s, p) == Some(RunEnd(s, p))
  {
    if UrlStartAt(s, p) {
      if p + 4 < |s| && s[p + 4] == 's' && SeparatorAt(s, p + 5) {
        DotStarAtEndOneLine(s, RunEnd(s, p + 8));
        RunEndSkip(s, p, p + 8);
      } else {
        DotStarAtEndOneLine(s, RunEnd(s, p + 7));
        RunEndSkip(s, p, p + 7);
      }
    } else if MatchGroupAt(s, p).Some? {
      UrlStartInPrefix(s, MatchGroupAt(s, p).value, p);
    }
  }

  lemma {:induction false} OneLinePrefix(s: string, p: nat)
    requires '\n' !in s && p <= |s|
    ensures MatchPrefix(s, p).None? <==> forall k :: 0 <= k <= p ==> !UrlStartAt(s, k)
    ensures MatchPrefix(s, p).Some? ==>
      var (k, q) := MatchPrefix(s, p).value;
      UrlStartAt(s, k) && (forall k' :: k < k' <= p ==> !UrlStartAt(s, k')) && q == RunEnd(s, k)
    decreases p
  {
    OneLineGroupAt(s, p);
    if !UrlStartAt(s, p) && p > 0 {
      OneLinePrefix(s, p - 1);
    }
  }

  /**
   * For a field without line breaks the greedy `^.*` makes the pattern pick the
   * LAST `http://` or `https://` in the text, and the URL runs to the next space.
   */
  lemma OneLineRegexUrl(s: string)
    requires '\n' !in s
    ensures RegexUrl(s).None? <==> forall k :: 0 <= k <= |s| ==> !UrlStartAt(s, k)
    ensures RegexUrl(s).Some? ==>
      exists k :: 0 <= k <= |s| && UrlStartAt(s, k) && (forall k' :: k < k' <= |s| ==> !UrlStartAt(s, k')) &&
                  RegexUrl(s).value == s[k..RunEnd(s, k)]
  {
    assert LineEnd(s, 0) == |s|;
    OneLinePrefix(s, |s|);
  }

  lemma {:induction false} NoSchemeBefore(s: string, p: nat)
    requires p <= |s| && forall k :: 0 <= k <= p ==> !UrlStartAt(s, k)
    ensures MatchPrefix(s, p).None?
    decreases p
  {
    if MatchGroupAt(s, p).Some? {
      UrlStartInPrefix(s, MatchGroupAt(s, p).value, p);
    }
    if p > 0 {
      NoSchemeBefore(s, p - 1);
    }
  }

  /**
   * `.` does not match a newline, so a URL whose scheme starts after the first
   * line break is never found, whatever follows.
   */
  lemma UrlAfterFirstLineIsMissed(s: string)
    requires forall k :: 0 <= k <= LineEnd(s, 0) ==> !UrlStartAt(s, k)
    ensures RegexUrl(s).None?
  {
    NoSchemeBefore(s, LineEnd(s, 0));
  }

  /** If `.*$` matches from `q`, it matches from every later index too. */
  lemma {:induction false} DotStarAtEndLater(s: string, q: nat, q': nat)
    requires q <= q' <= |s| && DotStarAtEnd(s, q)
    ensures DotStarAtEnd(s, q')
    decreases q' - q
  {
    if q < q' {
      DotStarAtEndLater(s, q + 1, q');
    }
  }

  /** Giving back characters of `[^ ]*` never helps: the run matches in full or not at all. */
  lemma MatchRunAllOrNothing(s: string, lo: nat, q: nat)
    requires lo <= q <= |s|
    ensures MatchRun(s, lo, q) == if DotStarAtEnd(s, q) then Some(q) else None
  {
    var r := MatchRun(s, lo, q);
    if r.Some? && !DotStarAtEnd(s, q) {
      DotStarAtEndLater(s, r.value, q);
    }
  }

  /**
   * The group matches at `p` exactly when a scheme starts there and `.*$`
   * matches after the full space-free run; group 1 then ends at the next space.
   */
  lemma MatchGroupAtExact(s: string, p: nat)
    requires p <= |s|
    ensures MatchGroupAt(s, p) ==
      if UrlStartAt(s, p) && DotStarAtEnd(s, RunEnd(s, p)) then Some(RunEnd(s, p)) else None
  {
    if HttpAt(s, p) {
      if p + 4 < |s| && s[p + 4] == 's' && SeparatorAt(s, p + 5) {
        MatchRunAllOrNothing(s, p + 8, RunEnd(s, p + 8));
        RunEndSkip(s, p, p + 8);
      } else if SeparatorAt(s, p + 4) {
        MatchRunAllOrNothing(s, p + 7, RunEnd(s, p + 7));
        RunEndSkip(s, p, p + 7);
      }
    }
  }

  /** A scheme at `p` from which the whole pattern can complete. */
  predicate GroupCanStart(s: string, p: nat)
  {
    p <= |s| && UrlStartAt(s, p) && DotStarAtEnd(s, RunEnd(s, p))
  }

  /**
   * For any field, line breaks included: the URL is the run from the LAST
   * scheme on the first line after which the pattern can complete, up to the
   * next space; there is none exactly when no such scheme exists.
   */
  lemma RegexUrlExact(s: string)
    ensures RegexUrl(s).None? <==> forall p :: 0 <= p <= LineEnd(s, 0) ==> !GroupCanStart(s, p)
    ensures RegexUrl(s).Some? ==>
      exists p :: 0 <= p <= LineEnd(s, 0) && GroupCanStart(s, p) &&
                  (forall p' :: p < p' <= LineEnd(s, 0) ==> !GroupCanStart(s, p')) &&
                  RegexUrl(s).value == s[p..RunEnd(s, p)]
  {
    forall p | 0 <= p <= |s| {
      MatchGroupAtExact(s, p);
    }
    var line := LineEnd(s, 0);
    match MatchPrefix(s, line)
    case None =>
      assert forall p :: 0 <= p <= line ==> MatchGroupAt(s, p).None?;
    case Some((k, q)) =>
      assert MatchGroupAt(s, k) == Some(q) && GroupCanStart(s, k);
  }

  /** The URL one text field of the event yields: `if field and 'http' in field`, then the pattern. */
  function FieldUrl(field: Option<string>): (r: Option<string>)
    ensures r.Some? ==> field.Some? && IsHttpUrl(r.value) && Contains(field.value, r.value)
  {
    match field
    case None => None
    case Some(text) => if text != "" && ContainsHttp(text) then RegexUrl(text) else None
  }

  /**
   * The URL `open_event` passes to the opener for an event that exists:
   * location, then description, then summary, then the default URL.
   */
  function SelectUrl(e: Event, defaultUrl: Option<string>): Option<string>
  {
    var fromLocation := FieldUrl(e.location);
    if fromLocation.Some? then fromLocation
    else
      var fromDescription := FieldUrl(e.description);
      if fromDescription.Some? then fromDescription
      else
        var fromSummary := FieldUrl(e.summary);
        if fromSummary.Some? then fromSummary else defaultUrl
  }

  /** The `'http' in field` test never changes the outcome: the pattern cannot match without it. */
  lemma HttpTestIsRedundant(text: string)
    ensures FieldUrl(Some(text)) == RegexUrl(text)
  {
  }

  predicate FieldContains(field: Option<string>, u: string)
  {
    field.Some? && Contains(field.value, u)
  }

  /** The target is the default URL, or a URL taken from one of the three fields. */
  lemma SelectedUrlOrigin(e: Event, defaultUrl: Option<string>)
    ensures var r := SelectUrl(e, defaultUrl);
      r == defaultUrl ||
      (r.Some? && IsHttpUrl(r.value) &&
       (FieldContains(e.location, r.value) || FieldContains(e.description, r.value) || FieldContains(e.summary, r.value)))
  {
  }

  predicate MentionsHttp(field: Option<string>)
  {
    field.Some? && ContainsHttp(field.value)
  }

  /** With no `http` in any field, the default URL is used. */
  lemma NoHttpMeansDefault(e: Event, defaultUrl: Option<string>)
    requires !MentionsHttp(e.location) && !MentionsHttp(e.description) && !MentionsHttp(e.summary)
    ensures SelectUrl(e, defaultUrl) == defaultUrl
  {
  }

  /**
   * Fields are tried in order: the first field that yields a URL supplies the
   * result, and no later field or the default is looked at; when no field
   * yields one, the result is the default URL.
   */
  lemma FieldPrecedence(e1: Event, e2: Event, d1: Option<string>, d2: Option<string>)
    ensures e1.location == e2.location && FieldUrl(e1.location).Some? ==>
      SelectUrl(e1, d1) == SelectUrl(e2, d2)
    ensures (e1.location == e2.location && e1.description == e2.description &&
             FieldUrl(e1.location).None? && FieldUrl(e1.description).Some?) ==>
      SelectUrl(e1, d1) == SelectUrl(e2, d2)
    ensures e1 == e2 && (FieldUrl(e1.location).Some? || FieldUrl(e1.description).Some? || FieldUrl(e1.summary).Some?) ==>
      SelectUrl(e1, d1) == SelectUrl(e2, d2)
    ensures FieldUrl(e1.location).Some? ==> SelectUrl(e1, d1) == FieldUrl(e1.location)
    ensures FieldUrl(e1.location).None? && FieldUrl(e1.description).Some? ==>
      SelectUrl(e1, d1) == FieldUrl(e1.description)
    ensures FieldUrl(e1.location).None? && FieldUrl(e1.description).None? && FieldUrl(e1.summary).Some? ==>
      SelectUrl(e1, d1) == FieldUrl(e1.summary)
    ensures FieldUrl(e1.location).None? && FieldUrl(e1.description).None? && FieldUrl(e1.summary).None? ==>
      SelectUrl(e1, d1) == d1
  {
  }

  lemma NoSchemeFrom(s: string, i: nat)
    requires i <= |s| && 'h' !in s[i..]
    ensures forall k :: i <= k <= |s| ==> !UrlStartAt(s, k)
  {
  }

  lemma RunEndIs(s: string, i: nat, j: nat)
    requires i <= j < |s| && s[j] == ' ' && ' ' !in s[i..j]
    ensures RunEnd(s, i) == j
  {
  }

  lemma ExampleScan(s: string)
    requires s == "see " + "http://example.com/x" + " for info"
    ensures '\n' !in s && UrlStartAt(s, 4)
  {
    var a, u, b := "see ", "http://example.com/x", " for info";
    assert '\n' !in a && '\n' !in u && '\n' !in b;
    assert s[4] == 'h' && s[5] == 't' && s[6] == 't' && s[7] == 'p';
    assert s[8] == ':' && s[9] == '/' && s[10] == '/';
  }

  lemma ExampleNoLaterScheme(s: string)
    requires s == "see " + "http://example.com/x" + " for info"
    ensures forall k :: 4 < k <= |s| ==> !UrlStartAt(s, k)
  {
    var a, h, rest := "see ", "h", "ttp://example.com/x for info";
    assert s == (a + h) + rest;
    assert s[5..] == rest;
    assert 'h' !in rest;
    NoSchemeFrom(s, 5);
  }

  lemma ExampleRun(s: string)
    requires s == "see " + "http://example.com/x" + " for info"
    ensures RunEnd(s, 4) == 24 && s[4..24] == "http://example.com/x"
  {
    var a, u, b := "see ", "http://example.com/x", " for info";
    assert (a + u + b)[..24] == a + u;
    assert (a + u)[4..] == u;
    assert s[24] == b[0] == ' ';
    assert ' ' !in u;
    RunEndIs(s, 4, 24);
  }

  /** A location with one URL in running text yields exactly that URL. */
  lemma LocationExample(e: Event, defaultUrl: Option<string>)
    requires e.location == Some("see " + "http://example.com/x" + " for info")
    ensures SelectUrl(e, defaultUrl) == Some("http://example.com/x")
  {
    var location := e.location.value;
    ExampleScan(location);
    ExampleNoLaterScheme(location);
    ExampleRun(location);
    OneLineRegexUrl(location);
    var k :| 0 <= k <= |location| && UrlStartAt(location, k) &&
             (forall k' :: k < k' <= |location| ==> !UrlStartAt(location, k')) &&
             RegexUrl(location).value == location[k..RunEnd(location, k)];
    assert k == 4;
    HttpTestIsRedundant(location);
  }

  /** With no URL in any field, the configured default is opened. */
  lemma FallbackExample(e: Event)
    requires e.location == None && e.description == Some("weekly sync") && e.summary == Some("Team meeting")
    ensures SelectUrl(e, Some("http://fallback")) == Some("http://fallback")
  {
    assert !ContainsHttp("weekly sync") by {
      forall k | 0 <= k <= |"weekly sync"| ensures !HttpAt("weekly sync", k) {
      }
    }
    assert !ContainsHttp("Team meeting") by {
      forall k | 0 <= k <= |"Team meeting"| ensures !HttpAt("Team meeting", k) {
      }
    }
  }
}
