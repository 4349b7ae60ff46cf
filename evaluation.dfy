/**
 * What one run of the bridge computes, as functions: the bulk query string
 * built from the configured checks, the effect of CheckForMaxValues on the
 * new alert state and on the notification log, and that effect folded over
 * the checks in configuration order.
 */
module Evaluation {
  import opened Optional
  import opened PhpStrings
  import opened PhpArray
  import opened Series
  import opened Response
  import opened StateFile

  /** One entry of the QueryBundle, keyed by its title. */
  datatype Check = Check(title: string, metric: string, max: Option<int>, severity: int)

  /** The check has a Max that is set and not empty (line 114), so a Max of 0 is no Max. */
  predicate HasMax(c: Check) {
    c.max.Some? && c.max.value != 0
  }

  /** What the bridge reports; the Send* methods and the progress prints. */
  datatype Notification =
    | MaxAlert(title: string, value: int, trip: int, metric: string, severity: int)
    | Clear(title: string)
    | NoneAlert
    | OkNote(title: string, value: int)
    | GraphiteFailAlert

  // ---- the bulk query ----

  /** The render path with a ten-minute window, and the raw-data option. */
  const RenderWindow: string := "/render/?from=-10minutes"
  const RawData: string := "rawData=true"
  const QueryPrefix: string := RenderWindow + "&" + RawData

  /** The `&target=` parameters, one per check, in configuration order. */
  function Targets(checks: seq<Check>): string {
    if checks == [] then ""
    else Targets(checks[..|checks| - 1]) + "&target=" + checks[|checks| - 1].metric
  }

  /** The query string sent to Graphite's render API. */
  function QueryString(checks: seq<Check>): string {
    QueryPrefix + Targets(checks)
  }

  /** The query-string loop of Run. */
  method BuildQueryString(checks: seq<Check>) returns (query: string)
    ensures query == QueryString(checks)
  {
    query := QueryPrefix;
    for i := 0 to |checks|
      invariant query == QueryPrefix + Targets(checks[..i])
    {
      assert checks[..i + 1][..i] == checks[..i];
      query := query + "&target=" + checks[i].metric;
    }
    assert checks[..|checks|] == checks;
  }

  function TargetFields(checks: seq<Check>): (fs: seq<string>)
    ensures |fs| == |checks|
    ensures forall i :: 0 <= i < |checks| ==> fs[i] == "target=" + checks[i].metric
  {
    if checks == [] then []
    else TargetFields(checks[..|checks| - 1]) + ["target=" + checks[|checks| - 1].metric]
  }

  const QueryHead: seq<string> := [RenderWindow, RawData]

  lemma QueryPrefixImplode()
    ensures QueryPrefix == Implode('&', QueryHead)
  {
    assert QueryHead[1..] == [RawData];
  }

  /** The literal `&target=` split into its `&` and the field; kept apart so the solver sees it without the induction's context. */
  lemma TargetGlue(query: string, metric: string)
    ensures query + "&target=" + metric == query + ['&'] + ("target=" + metric)
  {
  }

  lemma {:induction false} QueryStringImplode(checks: seq<Check>)
    ensures QueryString(checks) == Implode('&', QueryHead + TargetFields(checks))
  {
    if checks == [] {
      assert QueryHead + TargetFields(checks) == QueryHead;
      QueryPrefixImplode();
    } else {
      var pre := checks[..|checks| - 1];
      var field := "target=" + checks[|checks| - 1].metric;
      QueryStringImplode(pre);
      calc {
        QueryString(checks);
        QueryPrefix + (Targets(pre) + "&target=" + checks[|checks| - 1].metric);
        QueryString(pre) + "&target=" + checks[|checks| - 1].metric;
        { TargetGlue(QueryString(pre), checks[|checks| - 1].metric); }
        Implode('&', QueryHead + TargetFields(pre)) + ['&'] + field;
        { ImplodeSnoc('&', QueryHead + TargetFields(pre), field); }
        Implode('&', QueryHead + TargetFields(pre) + [field]);
        { assert QueryHead + TargetFields(checks) == (QueryHead + TargetFields(pre)) + [field]; }
        Implode('&', QueryHead + TargetFields(checks));
      }
    }
  }

  lemma QueryHeadPlain()
    ensures |QueryHead| >= 1 && forall i :: 0 <= i < |QueryHead| ==> '&' !in QueryHead[i]
  {
    assert QueryHead[0] == RenderWindow;
    assert QueryHead[1] == RawData;
  }

  lemma TargetFieldPlain(checks: seq<Check>, i: nat)
    requires i < |checks| && '&' !in checks[i].metric
    ensures '&' !in TargetFields(checks)[i]
  {
    assert '&' !in "target=";
  }

  lemma ExplodeFields(head: seq<string>, checks: seq<Check>)
    requires |head| >= 1 && forall i :: 0 <= i < |head| ==> '&' !in head[i]
    requires forall i :: 0 <= i < |checks| ==> '&' !in checks[i].metric
    ensures Explode('&', Implode('&', head + TargetFields(checks))) == head + TargetFields(checks)
  {
    var fs := head + TargetFields(checks);
    forall i | 0 <= i < |fs| ensures '&' !in fs[i] {
      if i < |head| {
        assert fs[i] == head[i];
      } else {
        TargetFieldPlain(checks, i - |head|);
        assert fs[i] == TargetFields(checks)[i - |head|];
      }
    }
    ExplodeImplode('&', fs);
  }

  /**
   * The query carries the fixed window and raw-data options and then one
   * target per configured check, in configuration order (for metrics
   * without `&`).
   */
  lemma QueryTargetsInOrder(checks: seq<Check>)
    requires forall i :: 0 <= i < |checks| ==> '&' !in checks[i].metric
    ensures Explode('&', QueryString(checks)) == QueryHead + TargetFields(checks)
  {
    QueryStringImplode(checks);
    QueryHeadPlain();
    ExplodeFields(QueryHead, checks);
  }

  // ---- evaluation of the checks ----

  /** The new alert state and the notifications so far. */
  datatype Outcome = Outcome(alerts: Dict, log: seq<Notification>)

  /** The effect of `CheckForMaxValues($Title, $Metric, $Threshold, $Severity)`. */
  function CheckEffect(title: string, metric: string, threshold: int, severity: int,
                       bundle: Bundle, oldAlerts: Dict, date: string, before: Outcome): Outcome
  {
    match Judge(SeriesOf(bundle, metric), threshold, Lookup(oldAlerts, title))
    case TooManyNone(_) => Outcome(before.alerts, before.log + [NoneAlert])
    case OverMax(m) => Outcome(Put(before.alerts, title, date), before.log + [MaxAlert(title, m, threshold, metric, severity)])
    case Recovered(_) => Outcome(before.alerts, before.log + [Clear(title)])
    case StillOk(m) => Outcome(before.alerts, before.log + [OkNote(title, m)])
  }

  /** One iteration of the check loop: a check without a Max is skipped. */
  function Step(c: Check, bundle: Bundle, oldAlerts: Dict, date: string, before: Outcome): Outcome {
    if HasMax(c) then CheckEffect(c.title, c.metric, c.max.value, c.severity, bundle, oldAlerts, date, before)
    else before
  }

  /** The check loop of Run: every check with a Max, in configuration order. */
  function Evaluate(checks: seq<Check>, bundle: Bundle, oldAlerts: Dict, date: string, start: Outcome): Outcome {
    if checks == [] then start
    else Step(checks[|checks| - 1], bundle, oldAlerts, date, Evaluate(checks[..|checks| - 1], bundle, oldAlerts, date, start))
  }

  /** A check that raises its Max alert on this run, whatever the previous state. */
  predicate Breaches(c: Check, bundle: Bundle) {
    var ts := SeriesOf(bundle, c.metric);
    HasMax(c) && NoneCount(ts) <= MaxNoneAllowed && SeriesMax(ts) > c.max.value
  }

  /** Some check titled `title` breaches on this run. */
  predicate BreachedTitle(checks: seq<Check>, bundle: Bundle, title: string) {
    exists i :: 0 <= i < |checks| && checks[i].title == title && Breaches(checks[i], bundle)
  }

  /** Only a breaching check touches the alert state, and it sets its title to the run's date. */
  lemma StepAlerts(c: Check, bundle: Bundle, oldAlerts: Dict, date: string, before: Outcome)
    ensures Step(c, bundle, oldAlerts, date, before).alerts ==
            if Breaches(c, bundle) then Put(before.alerts, c.title, date) else before.alerts
  {
  }

  lemma BreachedTitleSnoc(checks: seq<Check>, bundle: Bundle, title: string)
    requires checks != []
    ensures BreachedTitle(checks, bundle, title) <==>
            BreachedTitle(checks[..|checks| - 1], bundle, title) ||
            (checks[|checks| - 1].title == title && Breaches(checks[|checks| - 1], bundle))
  {
    var pre := checks[..|checks| - 1];
    if BreachedTitle(checks, bundle, title) {
      var i :| 0 <= i < |checks| && checks[i].title == title && Breaches(checks[i], bundle);
      if i < |pre| {
        assert pre[i] == checks[i];
      }
    }
    if BreachedTitle(pre, bundle, title) {
      var i :| 0 <= i < |pre| && pre[i].title == title && Breaches(pre[i], bundle);
      assert checks[i] == pre[i];
    }
  }

  /** The alert state keeps distinct titles. */
  lemma {:induction false} EvaluateUniqueKeys(checks: seq<Check>, bundle: Bundle, oldAlerts: Dict, date: string, start: Outcome)
    requires UniqueKeys(start.alerts)
    ensures UniqueKeys(Evaluate(checks, bundle, oldAlerts, date, start).alerts)
  {
    if checks != [] {
      var c := checks[|checks| - 1];
      var before := Evaluate(checks[..|checks| - 1], bundle, oldAlerts, date, start);
      EvaluateUniqueKeys(checks[..|checks| - 1], bundle, oldAlerts, date, start);
      StepAlerts(c, bundle, oldAlerts, date, before);
      PutKeepsUniqueKeys(before.alerts, c.title, date);
    }
  }

  /**
   * After the checks, a title is in the new alert state exactly when it was
   * there before or one of its checks breaches on this run. A title gated by
   * too many "None" samples, or within its threshold, is not added: it
   * leaves the persisted state even if it was in the previous one.
   */
  lemma {:induction false} EvaluateKeys(checks: seq<Check>, bundle: Bundle, oldAlerts: Dict, date: string,
                                        start: Outcome, k: string)
    ensures k in Keys(Evaluate(checks, bundle, oldAlerts, date, start).alerts) <==>
            k in Keys(start.alerts) || BreachedTitle(checks, bundle, k)
  {
    if checks != [] {
      var c := checks[|checks| - 1];
      var before := Evaluate(checks[..|checks| - 1], bundle, oldAlerts, date, start);
      EvaluateKeys(checks[..|checks| - 1], bundle, oldAlerts, date, start, k);
      StepAlerts(c, bundle, oldAlerts, date, before);
      BreachedTitleSnoc(checks, bundle, k);
    }
  }

  /** A breaching title carries this run's date in the new alert state. */
  lemma {:induction false} EvaluateDates(checks: seq<Check>, bundle: Bundle, oldAlerts: Dict, date: string,
                                         start: Outcome, k: string)
    requires UniqueKeys(start.alerts)
    requires BreachedTitle(checks, bundle, k)
    ensures Lookup(Evaluate(checks, bundle, oldAlerts, date, start).alerts, k) == Some(date)
  {
    var c := checks[|checks| - 1];
    var pre := checks[..|checks| - 1];
    var before := Evaluate(pre, bundle, oldAlerts, date, start);
    StepAlerts(c, bundle, oldAlerts, date, before);
    BreachedTitleSnoc(checks, bundle, k);
    EvaluateUniqueKeys(pre, bundle, oldAlerts, date, start);
    if Breaches(c, bundle) {
      LookupPut(before.alerts, c.title, date, k);
    }
    if BreachedTitle(pre, bundle, k) {
      EvaluateDates(pre, bundle, oldAlerts, date, start, k);
    }
  }

  /** The number of checks that have a Max. */
  function CountWithMax(checks: seq<Check>): nat {
    if checks == [] then 0
    else CountWithMax(checks[..|checks| - 1]) + (if HasMax(checks[|checks| - 1]) then 1 else 0)
  }

  /** A check with a Max adds exactly one notification: a clear only when owed, a Max alert only on a breach. */
  lemma StepLog(c: Check, bundle: Bundle, oldAlerts: Dict, date: string, before: Outcome)
    ensures var log := Step(c, bundle, oldAlerts, date, before).log;
            |log| == |before.log| + (if HasMax(c) then 1 else 0) && log[..|before.log|] == before.log
    ensures var log := Step(c, bundle, oldAlerts, date, before).log;
            HasMax(c) ==> (log[|before.log|].Clear? ==> log[|before.log|] == Clear(c.title) && ClearOwed(Lookup(oldAlerts, c.title))) &&
                          (log[|before.log|].MaxAlert? ==> log[|before.log|].title == c.title && Breaches(c, bundle))
  {
  }

  /** The log only grows, by one notification per check with a Max. */
  lemma {:induction false} EvaluateLogLength(checks: seq<Check>, bundle: Bundle, oldAlerts: Dict, date: string, start: Outcome)
    ensures var out := Evaluate(checks, bundle, oldAlerts, date, start);
            |out.log| == |start.log| + CountWithMax(checks) && out.log[..|start.log|] == start.log
  {
    if checks != [] {
      var c := checks[|checks| - 1];
      var before := Evaluate(checks[..|checks| - 1], bundle, oldAlerts, date, start);
      EvaluateLogLength(checks[..|checks| - 1], bundle, oldAlerts, date, start);
      StepLog(c, bundle, oldAlerts, date, before);
      var out := Evaluate(checks, bundle, oldAlerts, date, start);
      assert out.log[..|start.log|] == out.log[..|before.log|][..|start.log|];
    }
  }

  /**
   * Every clear of a run is for a title the previous run left a non-empty
   * entry for, and every Max alert is for a breaching check.
   */
  lemma {:induction false} EvaluateNotes(checks: seq<Check>, bundle: Bundle, oldAlerts: Dict, date: string, start: Outcome)
    ensures var out := Evaluate(checks, bundle, oldAlerts, date, start);
            forall j :: |start.log| <= j < |out.log| ==>
              (out.log[j].Clear? ==> ClearOwed(Lookup(oldAlerts, out.log[j].title))) &&
              (out.log[j].MaxAlert? ==> BreachedTitle(checks, bundle, out.log[j].title))
  {
    if checks != [] {
      var c := checks[|checks| - 1];
      var pre := checks[..|checks| - 1];
      var before := Evaluate(pre, bundle, oldAlerts, date, start);
      var out := Evaluate(checks, bundle, oldAlerts, date, start);
      EvaluateNotes(pre, bundle, oldAlerts, date, start);
      EvaluateLogLength(pre, bundle, oldAlerts, date, start);
      StepLog(c, bundle, oldAlerts, date, before);
      forall j | |start.log| <= j < |out.log|
        ensures out.log[j].Clear? ==> ClearOwed(Lookup(oldAlerts, out.log[j].title))
        ensures out.log[j].MaxAlert? ==> BreachedTitle(checks, bundle, out.log[j].title)
      {
        if out.log[j].MaxAlert? {
          BreachedTitleSnoc(checks, bundle, out.log[j].title);
        }
        if j < |before.log| {
          assert out.log[j] == out.log[..|before.log|][j] == before.log[j];
        }
      }
    }
  }

  /**
   * A request that fails without ending the run leaves the bundle empty, so
   * no check with a Max of at least 0 breaches: the new state keeps only
   * what it held before (Series.EmptySeriesVerdict gives each such check's
   * verdict, a clear for every title with a previous alert).
   */
  lemma FailedFetchAddsNothing(checks: seq<Check>, oldAlerts: Dict, date: string, start: Outcome, k: string)
    requires UniqueKeys(start.alerts)
    requires forall i :: 0 <= i < |checks| && HasMax(checks[i]) ==> checks[i].max.value >= 0
    ensures k in Keys(Evaluate(checks, Keyed(map[]), oldAlerts, date, start).alerts) <==> k in Keys(start.alerts)
  {
    EvaluateKeys(checks, Keyed(map[]), oldAlerts, date, start, k);
  }

  /**
   * A response that takes the single-line fallback (as Graphite's answer to a
   * query with one target does: one line and its newline) leaves a flat list
   * in which no metric has samples, so no check with a Max of at least 0 can
   * alert on it.
   */
  lemma FallbackNeverAlerts(output: string, metric: string, threshold: int, previous: Option<string>)
    requires !MultiLine(output) && '|' in output
    requires threshold >= 0
    ensures ParseResponse(output).Some? && ParseResponse(output).value.Flat?
    ensures !Judge(SeriesOf(ParseResponse(output).value, metric), threshold, previous).OverMax?
  {
    FallbackBranch(output);
    EmptySeriesVerdict(threshold, previous);
  }

  /** A text with a newline appended is neither "" nor "0"; kept apart for the same reason as TargetGlue. */
  lemma NewlineNotEmpty(s: string)
    ensures !PhpEmpty(s + "\n")
  {
    assert (s + "\n")[|s|] == '\n';
  }

  /** A value read back from the state file keeps its newline, so it is never empty. */
  lemma ReloadedValueNotEmpty(d: Dict, title: string)
    requires title in Keys(d)
    ensures ClearOwed(Lookup(WithNewlineValues(d), title))
  {
    var reloaded := WithNewlineValues(d);
    var r := Lookup(reloaded, title);
    assert title in Keys(reloaded) by {
      var j :| 0 <= j < |d| && Keys(d)[j] == title;
      assert Keys(reloaded)[j] == title;
    }
    var i :| 0 <= i < |reloaded| && reloaded[i] == (title, r.value);
    NewlineNotEmpty(d[i].1);
  }

  /**
   * Across two runs: a title the previous run wrote to the state file, whose
   * series is now within its threshold, is cleared, because the value read
   * back holds at least the line's newline and so is never empty.
   */
  lemma ReloadedAlertIsCleared(previous: Dict, title: string, ts: seq<string>, threshold: int)
    requires PlainEntries(previous) && UniqueKeys(previous)
    requires title in Keys(previous)
    requires NoneCount(ts) <= MaxNoneAllowed && SeriesMax(ts) <= threshold
    ensures Judge(ts, threshold, Lookup(Load([], FileLines(Serialize(previous))), title)).Recovered?
  {
    StateRoundTrip(previous);
    ReloadedValueNotEmpty(previous, title);
  }
}
