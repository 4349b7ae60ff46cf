/**
 * The Max / None-count rule of CheckForMaxValues: a scan over one metric's
 * sample tokens that counts the "None" placeholders and keeps the largest
 * integer value of the others, and the decision taken from the result.
 */
module Series {
  import opened Optional
  import opened PhpStrings

  /** More "None" samples than this and the metric is not judged on its values. */
  const MaxNoneAllowed: nat := 4

  /** A sample Graphite reports as missing. */
  predicate IsNone(t: string) {
    t == "None" || t == "None\n"
  }

  /** The number of "None" samples, as counted by the scan. */
  function NoneCount(ts: seq<string>): nat {
    if ts == [] then 0
    else NoneCount(ts[..|ts| - 1]) + (if IsNone(ts[|ts| - 1]) then 1 else 0)
  }

  /**
   * The running maximum of the scan: it starts at 0 and is raised by every
   * sample that is not "None" and whose integer value is larger.
   */
  function SeriesMax(ts: seq<string>): int {
    if ts == [] then 0
    else
      var m := SeriesMax(ts[..|ts| - 1]);
      var t := ts[|ts| - 1];
      if !IsNone(t) && IntCast(t) > m then IntCast(t) else m
  }

  /** The samples that take part in the maximum, in order. */
  function Numeric(ts: seq<string>): (ns: seq<string>)
    ensures |ns| <= |ts|
    ensures forall i :: 0 <= i < |ns| ==> !IsNone(ns[i])
  {
    if ts == [] then []
    else if IsNone(ts[|ts| - 1]) then Numeric(ts[..|ts| - 1])
    else Numeric(ts[..|ts| - 1]) + [ts[|ts| - 1]]
  }

  /** The scan loop of CheckForMaxValues over one metric's samples. */
  method ScanSeries(ts: seq<string>) returns (maxValue: int, noneCounter: nat)
    ensures maxValue == SeriesMax(ts)
    ensures noneCounter == NoneCount(ts)
  {
    maxValue, noneCounter := 0, 0;
    for i := 0 to |ts|
      invariant maxValue == SeriesMax(ts[..i])
      invariant noneCounter == NoneCount(ts[..i])
    {
      assert ts[..i + 1][..i] == ts[..i];
      var value := ts[i];
      if !IsNone(value) {
        if IntCast(value) > maxValue {
          maxValue := IntCast(value);
        }
      } else {
        noneCounter := noneCounter + 1;
      }
    }
    assert ts[..|ts|] == ts;
  }

  /**
   * The scan's result is the maximum of 0 and the integer values of the
   * samples that are not "None": never negative, at least every such value,
   * and either 0 or one of them.
   */
  lemma {:induction false} SeriesMaxIsMaximum(ts: seq<string>)
    ensures SeriesMax(ts) >= 0
    ensures forall i :: 0 <= i < |ts| && !IsNone(ts[i]) ==> IntCast(ts[i]) <= SeriesMax(ts)
    ensures SeriesMax(ts) == 0 || exists i :: 0 <= i < |ts| && !IsNone(ts[i]) && IntCast(ts[i]) == SeriesMax(ts)
  {
    if ts != [] {
      var pre := ts[..|ts| - 1];
      SeriesMaxIsMaximum(pre);
      forall i | 0 <= i < |ts| - 1 ensures ts[i] == pre[i] { }
      if SeriesMax(ts) != 0 && SeriesMax(ts) == SeriesMax(pre) {
        var i :| 0 <= i < |pre| && !IsNone(pre[i]) && IntCast(pre[i]) == SeriesMax(pre);
        assert ts[i] == pre[i];
      }
    }
  }

  /** An empty series, or one of "None" samples only, has maximum 0. */
  lemma AllNoneMaxIsZero(ts: seq<string>)
    requires forall i :: 0 <= i < |ts| ==> IsNone(ts[i])
    ensures SeriesMax(ts) == 0
    ensures NoneCount(ts) == |ts|
  {
    SeriesMaxIsMaximum(ts);
    NonePartition(ts);
    if |Numeric(ts)| > 0 {
      NumericFrom(ts, 0);
    }
  }

  /** Every sample of Numeric(ts) is a sample of ts. */
  lemma {:induction false} NumericFrom(ts: seq<string>, k: nat)
    requires k < |Numeric(ts)|
    ensures exists i :: 0 <= i < |ts| && ts[i] == Numeric(ts)[k] && !IsNone(ts[i])
  {
    var pre := ts[..|ts| - 1];
    if k < |Numeric(pre)| {
      NumericFrom(pre, k);
      var i :| 0 <= i < |pre| && pre[i] == Numeric(pre)[k] && !IsNone(pre[i]);
      assert ts[i] == pre[i];
    } else {
      assert Numeric(ts)[k] == ts[|ts| - 1];
    }
  }

  /**
   * Every sample goes to exactly one side of the scan: it is counted as
   * "None" or it takes part in the maximum. So the count is at most the
   * number of samples, and the maximum depends on the other samples alone.
   */
  lemma {:induction false} NonePartition(ts: seq<string>)
    ensures NoneCount(ts) + |Numeric(ts)| == |ts|
    ensures NoneCount(ts) <= |ts|
    ensures SeriesMax(Numeric(ts)) == SeriesMax(ts)
  {
    if ts != [] {
      var pre := ts[..|ts| - 1];
      var t := ts[|ts| - 1];
      NonePartition(pre);
      if !IsNone(t) {
        var ns := Numeric(pre) + [t];
        assert ns[..|ns| - 1] == Numeric(pre);
      }
    }
  }

  /**
   * The maximum is over the threshold exactly when the threshold is negative
   * (the maximum starts at 0) or some sample that is not "None" has an
   * integer value over it.
   */
  lemma MaxOverThreshold(ts: seq<string>, threshold: int)
    ensures SeriesMax(ts) > threshold <==>
            threshold < 0 || exists i :: 0 <= i < |ts| && !IsNone(ts[i]) && IntCast(ts[i]) > threshold
  {
    SeriesMaxIsMaximum(ts);
  }

  /** The four outcomes of CheckForMaxValues. */
  datatype Verdict =
    | TooManyNone(noneCount: nat)    // prints "None Alert"; no alert, no clear
    | OverMax(value: int)            // SendMaxAlert; the title goes into Alerts
    | Recovered(value: int)          // SendClear; it had alerted on the previous run
    | StillOk(value: int)            // prints that the check is OK

  /** The previous run left an entry for the title that is set and not empty (line 190). */
  predicate ClearOwed(previous: Option<string>) {
    previous.Some? && !PhpEmpty(previous.value)
  }

  /** The decision of CheckForMaxValues for one series. */
  function Judge(ts: seq<string>, threshold: int, previous: Option<string>): Verdict {
    var noneCount := NoneCount(ts);
    var maxValue := SeriesMax(ts);
    if noneCount > MaxNoneAllowed then TooManyNone(noneCount)
    else if maxValue > threshold then OverMax(maxValue)
    else if ClearOwed(previous) then Recovered(maxValue)
    else StillOk(maxValue)
  }

  /**
   * The decision in terms of the samples themselves: too many "None" samples
   * gate everything else; otherwise an alert exactly when the Max is negative
   * or some value exceeds it, whatever the previous state; otherwise a clear
   * exactly when the previous run left a non-empty entry for the title.
   */
  lemma JudgeBySamples(ts: seq<string>, threshold: int, previous: Option<string>)
    ensures Judge(ts, threshold, previous).TooManyNone? <==> NoneCount(ts) > MaxNoneAllowed
    ensures Judge(ts, threshold, previous).OverMax? <==>
            NoneCount(ts) <= MaxNoneAllowed &&
            (threshold < 0 || exists i :: 0 <= i < |ts| && !IsNone(ts[i]) && IntCast(ts[i]) > threshold)
    ensures Judge(ts, threshold, previous).Recovered? <==>
            NoneCount(ts) <= MaxNoneAllowed && ClearOwed(previous) && threshold >= 0 &&
            forall i :: 0 <= i < |ts| && !IsNone(ts[i]) ==> IntCast(ts[i]) <= threshold
    ensures threshold < 0 ==> (Judge(ts, threshold, previous).OverMax? <==> NoneCount(ts) <= MaxNoneAllowed)
    ensures previous.None? ==> !Judge(ts, threshold, previous).Recovered?
  {
    MaxOverThreshold(ts, threshold);
  }

  /**
   * With no samples at all (a metric missing from the bundle) a negative Max
   * alerts, and otherwise the check is cleared exactly when the previous run
   * left a non-empty entry for it.
   */
  lemma EmptySeriesVerdict(threshold: int, previous: Option<string>)
    ensures Judge([], threshold, previous) ==
            if threshold < 0 then OverMax(0) else if ClearOwed(previous) then Recovered(0) else StillOk(0)
  {
    assert NoneCount([]) == 0 && SeriesMax([]) == 0;
  }
}
