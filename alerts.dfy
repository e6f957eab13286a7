/** `src/pages/Alerts.tsx`: when an alert counts as active or as recently
    resolved, and how the alerts page splits the list. Instants are
    millisecond counts; the reference time `ref` is the current time,
    passed in. */
module Alerts {
  import opened Wrappers
  import opened Seqs
  import opened Configs

  /** One day in milliseconds, and the two-week window for resolved alerts. */
  const DayMs: int := 86_400_000
  const ResolvedWindowMs: int := 14 * DayMs

  /** `parse(s)`: an empty or absent string gives no date; any other string
      gives a `Date`, which may be invalid. */
  function Parse(d: Option<DateString>): (r: Option<Instant>)
    ensures r.None? <==> d.None? || d.value.text == ""
    ensures r.Some? ==> r.value == d.value.parsed
  {
    if d.Some? && d.value.text != "" then Some(d.value.parsed) else None
  }

  /** `x > ref` on a `Date`: false for an invalid date (NaN). */
  predicate After(x: Instant, ref: int) {
    x.Millis? && x.ms > ref
  }

  /** `x < ref` on a `Date`: false for an invalid date (NaN). */
  predicate Before(x: Instant, ref: int) {
    x.Millis? && x.ms < ref
  }

  /** `isActive(a, ref)`. */
  predicate IsActive(a: Alert, ref: int) {
    var start := Parse(Some(a.effectiveFrom));
    var end := Parse(a.effectiveTo);
    if start.None? then false
    else if After(start.value, ref) then false
    else if end.Some? && Before(end.value, ref) then false
    else true
  }

  /** Both dates of an alert are valid whenever present. */
  predicate WellDated(a: Alert) {
    a.effectiveFrom.parsed.Millis? &&
    (a.effectiveTo.Some? && a.effectiveTo.value.text != "" ==> a.effectiveTo.value.parsed.Millis?)
  }

  /** With valid dates, an alert is active exactly from its start to its end,
      both bounds included; without an end it stays active. */
  lemma ActiveWindow(a: Alert, ref: int)
    requires WellDated(a)
    ensures IsActive(a, ref) <==>
      a.effectiveFrom.text != "" && a.effectiveFrom.parsed.ms <= ref &&
      (Parse(a.effectiveTo).None? || ref <= Parse(a.effectiveTo).value.ms)
  {
  }

  /** An alert without a start text is never active. */
  lemma NoStartNeverActive(a: Alert, ref: int)
    requires a.effectiveFrom.text == ""
    ensures !IsActive(a, ref)
  {
  }

  /** As written, a start the host cannot parse compares false both ways, so
      the alert counts as started whatever the time. */
  lemma InvalidStartCountsAsStarted(a: Alert, ref: int)
    requires a.effectiveFrom.text != "" && a.effectiveFrom.parsed == InvalidDate
    requires a.effectiveTo.None?
    ensures IsActive(a, ref)
  {
  }

  /** `isRecentlyResolved(a, ref)`: `(ref - end) / 86_400_000` lies in [0, 14].
      For integer millisecond counts this is the integer test below. */
  predicate IsRecentlyResolved(a: Alert, ref: int) {
    var end := Parse(a.effectiveTo);
    end.Some? && end.value.Millis? && 0 <= ref - end.value.ms <= ResolvedWindowMs
  }

  /** At its end instant an alert is still active and already resolved. */
  lemma EndInstantIsBoth(a: Alert, ref: int)
    requires WellDated(a) && a.effectiveFrom.text != "" && a.effectiveFrom.parsed.ms <= ref
    requires Parse(a.effectiveTo) == Some(Millis(ref))
    ensures IsActive(a, ref) && IsRecentlyResolved(a, ref)
  {
  }

  /** A resolved alert leaves the list fourteen days after its end. */
  lemma ResolvedWindowEnds(a: Alert, ref: int)
    requires Parse(a.effectiveTo).Some? && Parse(a.effectiveTo).value.Millis?
    ensures IsRecentlyResolved(a, ref) <==>
      Parse(a.effectiveTo).value.ms <= ref <= Parse(a.effectiveTo).value.ms + 14 * DayMs
  {
  }

  // ---- the page lists -------------------------------------------------------

  function ActiveAt(ref: int): Alert -> bool {
    (a: Alert) => IsActive(a, ref)
  }

  function ResolvedAt(ref: int): Alert -> bool {
    (a: Alert) => IsRecentlyResolved(a, ref)
  }

  function HasSeverity(s: Severity): Alert -> bool {
    (a: Alert) => a.severity == s
  }

  /** The three lists of the page, in source order. */
  datatype Lists = Lists(emergencies: seq<Alert>, notices: seq<Alert>, resolved: seq<Alert>)

  function PageLists(alerts: seq<Alert>, ref: int): Lists {
    var active := Filter(alerts, ActiveAt(ref));
    Lists(
      Filter(active, HasSeverity(Emergency)),
      Filter(active, HasSeverity(Notice)),
      Filter(alerts, ResolvedAt(ref)))
  }

  /** The emergency and notice lists split the active alerts between them,
      each alert in exactly one, each list in source order. */
  lemma SeveritiesPartitionActive(alerts: seq<Alert>, ref: int)
    ensures var l := PageLists(alerts, ref);
      var active := Filter(alerts, ActiveAt(ref));
      multiset(l.emergencies) + multiset(l.notices) == multiset(active) &&
      IsSubsequence(l.emergencies, alerts) && IsSubsequence(l.notices, alerts)
  {
    var active := Filter(alerts, ActiveAt(ref));
    FilterPartition(active, HasSeverity(Emergency), HasSeverity(Notice));
    FilterFilter(alerts, ActiveAt(ref), HasSeverity(Emergency));
    FilterFilter(alerts, ActiveAt(ref), HasSeverity(Notice));
    FilterIsSubsequence(alerts, And(ActiveAt(ref), HasSeverity(Emergency)));
    FilterIsSubsequence(alerts, And(ActiveAt(ref), HasSeverity(Notice)));
  }

  /** The emergency list holds exactly the active emergencies. */
  lemma EmergencyListContents(alerts: seq<Alert>, ref: int)
    ensures forall a :: a in PageLists(alerts, ref).emergencies <==>
      a in alerts && IsActive(a, ref) && a.severity == Emergency
  {
    var active := Filter(alerts, ActiveAt(ref));
    FilterContents(alerts, ActiveAt(ref));
    FilterContents(active, HasSeverity(Emergency));
  }

  /** Recently resolved is drawn from all alerts, active ones included: an
      alert at its end instant is listed both as active and as resolved. */
  lemma ResolvedIncludesActive(alerts: seq<Alert>, ref: int, a: Alert)
    requires a in alerts && IsRecentlyResolved(a, ref)
    ensures a in PageLists(alerts, ref).resolved
  {
    FilterContents(alerts, ResolvedAt(ref));
  }

  // ---- the page -------------------------------------------------------------

  /** A section of the page: its cards, or the "nothing here" subtitle. */
  datatype Section = Section(title: string, subtitle: Option<string>, cards: seq<Alert>)

  datatype AlertsView = LoadingView | ErrorView(message: string) | ListsView(sections: seq<Section>)

  function MakeSection(title: string, empty: string, cards: seq<Alert>): (s: Section)
    ensures s.subtitle.Some? <==> |cards| == 0
  {
    Section(title, if |cards| == 0 then Some(empty) else None, cards)
  }

  /** `AlertsRoute` for the hook's `data`, `error` and `isLoading`. */
  function AlertsPage(data: Option<seq<Alert>>, error: Option<string>, isLoading: bool, ref: int): (v: AlertsView)
    ensures isLoading ==> v == LoadingView
    ensures !isLoading && ((error.Some? && error.value != "") || data.None?) ==>
      v == ErrorView(error.GetOr("Unable to load alerts."))
    ensures !isLoading && !(error.Some? && error.value != "") && data.Some? ==> v.ListsView?
    ensures v.ListsView? ==> data.Some? && |v.sections| == 3
    ensures v.ListsView? ==>
      v.sections[0].cards == PageLists(data.value, ref).emergencies &&
      v.sections[1].cards == PageLists(data.value, ref).notices &&
      v.sections[2].cards == PageLists(data.value, ref).resolved
  {
    if isLoading then LoadingView
    else if (error.Some? && error.value != "") || data.None? then ErrorView(error.GetOr("Unable to load alerts."))
    else
      var l := PageLists(data.value, ref);
      ListsView([
        MakeSection("Active Emergencies", "None at this time.", l.emergencies),
        MakeSection("Active Non‑Emergency Notices", "None at this time.", l.notices),
        MakeSection("Recently Resolved", "Nothing resolved in the last 14 days.", l.resolved)])
  }

  /** An error with an empty message does not stop the lists when the data
      is there; without data, it is shown as it is, empty, because `??` only
      replaces a missing error. */
  lemma EmptyErrorMessage(data: Option<seq<Alert>>, ref: int)
    ensures data.Some? ==> AlertsPage(data, Some(""), false, ref).ListsView?
    ensures data.None? ==> AlertsPage(data, Some(""), false, ref) == ErrorView("")
  {
  }
}
