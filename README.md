# Graphite-to-Zenoss bridge, modelled in Dafny

GraphiteZenossBridge runs on a schedule. It asks Graphite's render API for
the last ten minutes of every configured metric in a single bulk request.
It then takes the largest sample of each metric and compares it with that
check's `Max`. It raises an alert for a check over its threshold. It clears
a check that was alerting on the previous run and is now at or under it.
Between runs it keeps the failing checks in a state file, one `title|date`
line each.

The model follows the class `GraphiteZenossBridge`
(`GraphiteZenossBridge.class.php`):

- `Bridge.GraphiteZenossBridge` is a Dafny class with the same state.
  - The constant configuration.
  - The `MetricBundle` of the current run.
  - `OldAlerts` and `Alerts`, as ordered PHP arrays.
  - The notifications it has sent, as a log.
- Its methods update that state step by step, as the PHP methods do. Each
  one is proved against a specification function.
- The functions live in modules that follow the program's parts:
  - `PhpStrings`: the PHP built-ins used, namely `explode`, `file`,
    `empty` and the `(int)` cast.
  - `PhpArray`: an ordered PHP array with `$a[$k] = $v`.
  - `Series`: the sample scan and the alert decision.
  - `Response`: parsing Graphite's raw-data response.
  - `StateFile`: the format of the state file.
  - `Evaluation`: the query string, and one run's effect on the alert
    state and the log.
- The properties of the specification functions are proved as lemmas
  about them.

Outside dependencies are parameters:

- The HTTP request is a function `graphite` from URL to response body.
  A failed request is the empty body.
- The state file is a `TextFile` object. A missing file is empty text.
- The clock reading `date()` is the constructor's `now`.
- The process-wide `$GLOBALS['GraphiteFailures']` and
  `$GLOBALS['MaxGraphiteFailures']` are a `FailureGlobals` object.
- `exit()` ends `Run` with `exited == true`.

A consequence of the response parse is recorded by
`Evaluation.FallbackNeverAlerts`. A response holding a single series is a
single line and its newline. That answer takes the single-line fallback,
whose flat list holds no series for any metric. So a configuration with a
single check never raises a Max alert for a Max of at least 0.

## Model

| member | source | states |
|---|---|---|
| Bridge.GraphiteZenossBridge.constructor | GraphiteZenossBridge.class.php:58-93 | The date is always stored. If any of zenoss_username, zenoss_password, zenoss_url or graphite_url is missing or empty, the object keeps no credentials and no checks. Otherwise it stores the four credentials and the checks; the Graphite user name and password are stored only when given and not empty. |
| Bridge.CredentialsComplete | GraphiteZenossBridge.class.php:66-76 | The four required credentials are each present and not empty. A definition; the constructor's contract states what follows from it. |
| Bridge.GraphiteZenossBridge.Run | GraphiteZenossBridge.class.php:98-127 | OldAlerts is loaded from the state file. The failure counter grows by one exactly when the response does not parse. The run exits exactly when that pushes the counter over its limit; it then sends only the Graphite-failure alert and leaves Alerts and the state file unchanged. Otherwise the log and Alerts are the fold of every check, in order, and the state file holds the serialized Alerts. |
| Bridge.GraphiteZenossBridge.EvaluateChecks | GraphiteZenossBridge.class.php:112-122 | The check loop leaves Alerts and the log equal to `Evaluate` over the configured checks. Only checks with a non-zero Max are judged. |
| Bridge.GraphiteZenossBridge.ProcessStateFile | GraphiteZenossBridge.class.php:129-152 | Writing replaces the file's text with `Serialize(Alerts)`. Reading assigns every line's `title|date` into OldAlerts in file order, leaves the file untouched, and keeps OldAlerts' keys distinct. |
| Bridge.WriteRecords | GraphiteZenossBridge.class.php:135-138 | The write loop produces exactly `Serialize(Alerts)`. |
| Bridge.ReadRecords | GraphiteZenossBridge.class.php:144-150 | The read loop equals the `Load` fold over the lines and keeps the keys distinct. |
| Bridge.GraphiteZenossBridge.CheckForMaxValues | GraphiteZenossBridge.class.php:154-201 | The new Alerts and log are `CheckEffect`, which follows the `Judge` verdict:<br>- too many None: a None alert;<br>- over the threshold: a Max alert, and `Alerts[Title] = Date`;<br>- a previous non-empty entry: a clear;<br>- otherwise: the OK note. |
| Bridge.GraphiteZenossBridge.MakeGraphiteRequest | GraphiteZenossBridge.class.php:203-254 | The MetricBundle becomes the parsed response, or stays as it was when parsing fails. Only a failure adds one to the counter. The status is Exited exactly when the counter then exceeds its limit, and only then is the Graphite-failure alert logged. |
| Series.IsNone | GraphiteZenossBridge.class.php:161 | A sample is missing when it is "None", with or without its newline. A definition; Series.NonePartition and Series.AllNoneMaxIsZero state how it splits a series. |
| Series.ClearOwed | GraphiteZenossBridge.class.php:190 | A clear is owed when the previous run left an entry for the title that is not empty. A definition; Series.JudgeBySamples and Evaluation.ReloadedValueNotEmpty state its properties. |
| Series.ScanSeries | GraphiteZenossBridge.class.php:156-170 | The sample loop returns `SeriesMax` and `NoneCount` of the series. |
| Series.SeriesMaxIsMaximum | GraphiteZenossBridge.class.php:156-165 | The maximum starts at 0. It is at least 0 and at least the cast of every non-None sample. It is 0 or equal to the cast of some non-None sample. |
| Series.AllNoneMaxIsZero | GraphiteZenossBridge.class.php:161-169 | A series made only of None samples has maximum 0, and every sample is counted as None. |
| Series.NonePartition | GraphiteZenossBridge.class.php:159-170 | None samples plus numeric samples make up the whole series. The maximum over the numeric samples alone equals the series maximum. |
| Series.NumericFrom | GraphiteZenossBridge.class.php:161 | Every numeric sample is a non-None sample of the series. |
| Series.MaxOverThreshold | GraphiteZenossBridge.class.php:156-179 | The maximum exceeds the threshold exactly when the threshold is negative (the maximum starts at 0) or some non-None sample's cast exceeds it. |
| Series.Judge | GraphiteZenossBridge.class.php:172-199 | The decision of CheckForMaxValues from the None count, the maximum and the previous entry. Its properties are stated by Series.JudgeBySamples. |
| Series.JudgeBySamples | GraphiteZenossBridge.class.php:156-199 | Holds for every threshold. The None gate holds exactly when more than MaxNoneAllowed (4) samples are None. Otherwise a Max alert is raised exactly when the Max is negative or some sample strictly exceeds it, whatever the previous state. A negative Max therefore alerts whenever the gate is open, even with no samples. A clear happens exactly when the gate is open, the Max is at least 0, no sample exceeds it, and OldAlerts has a non-empty entry for the title. Without a previous entry there is never a clear. |
| Series.EmptySeriesVerdict | GraphiteZenossBridge.class.php:156-199 | With no samples, a negative Max alerts. Any other Max clears a title with a non-empty previous entry and otherwise reports OK. |
| Response.SeriesOf | GraphiteZenossBridge.class.php:159 | The samples the scan visits for a metric: its series in a keyed bundle, none when it is missing or the bundle is flat. A definition; Evaluation.FallbackNeverAlerts and Evaluation.FailedFetchAddsNothing state what follows. |
| Response.MultiLine | GraphiteZenossBridge.class.php:220-221 | The response has a second line that is not empty. A definition; Response.ParseResponse, Response.FallbackBranch and Response.SingleLineFallback state which texts pass it. |
| Response.LineEntry | GraphiteZenossBridge.class.php:226-229 | One line gives the header's text up to its first comma and the comma-separated data, or nothing when the data part is missing or empty. A definition; Response.KeyedSeriesKeys, Response.KeyedSeriesLastWins and Response.KeysHaveNoComma state its properties. |
| Response.ParseLines | GraphiteZenossBridge.class.php:223-230 | The multi-line parse loop computes `KeyedSeries` of the lines. |
| Response.KeyedSeriesKeys | GraphiteZenossBridge.class.php:224-229 | A metric has a series exactly when some line has data after its `|` for it. |
| Response.KeyedSeriesLastWins | GraphiteZenossBridge.class.php:224-229 | A metric's series comes from the last line that has data for it. No later line carries that metric. |
| Response.KeysHaveNoComma | GraphiteZenossBridge.class.php:227-229 | A key is the part of the header before the first comma, so a metric containing a comma never has a series. |
| Response.ParseResponse | GraphiteZenossBridge.class.php:220-251 | The multi-line branch is taken when the second line is set and not empty, then the single-line fallback. The parse fails, and so counts as a failure, exactly when there is no such second line and the text holds no `|`. |
| Response.FallbackBranch | GraphiteZenossBridge.class.php:220-251 | Without a second non-empty line: a text holding `|` gives the flat list of the comma-separated piece after its first `|`, and a text without `|` fails. |
| Response.SingleLineFallback | GraphiteZenossBridge.class.php:220-239 | A one-line response `header|data` becomes the flat list of the comma-separated data. The same holds with Graphite's trailing newline, which stays on the last token. |
| Response.NoBarNoParse | GraphiteZenossBridge.class.php:220-249 | A one-line response without `|` does not parse, with or without a trailing newline, and so counts as a failure. |
| PhpStrings.PhpEmpty | GraphiteZenossBridge.class.php:66-76 | `empty()` on a string: the empty string and "0", as used here and at lines 190, 221 and 228. A definition; Evaluation.NewlineNotEmpty and Evaluation.ReloadedValueNotEmpty state that a value read back is never empty. |
| PhpStrings.Explode | GraphiteZenossBridge.class.php:146 | `explode` with a one-character delimiter always gives at least one piece. |
| PhpStrings.ExplodeSplits | GraphiteZenossBridge.class.php:236 | There is a second piece (`isset($output[1])`) exactly when the text holds the delimiter. |
| PhpStrings.FileLines | GraphiteZenossBridge.class.php:144 | `file()` of an empty text has no lines. |
| PhpStrings.IntCast | GraphiteZenossBridge.class.php:163-164 | Only a leading minus sign gives a negative value. A token made only of digits has its decimal value. |
| PhpStrings.ImplodeExplode | GraphiteZenossBridge.class.php:220 | Joining the pieces of `explode` with the delimiter gives back the text. |
| PhpStrings.ExplodeImplode | GraphiteZenossBridge.class.php:226-229 | Exploding joined pieces gives back the pieces, when none holds the delimiter. |
| PhpStrings.ExplodeNoDelimiter | GraphiteZenossBridge.class.php:146 | No piece of `explode` contains the delimiter. |
| PhpStrings.FileLinesTerminated | GraphiteZenossBridge.class.php:144 | `file()` on newline-terminated lines gives those lines, each keeping its newline. |
| PhpArray.Lookup | GraphiteZenossBridge.class.php:190 | `isset($d[$k])` holds exactly when `$k` is a key. The value read is the one stored with it. |
| PhpArray.Put | GraphiteZenossBridge.class.php:185 | Assigning keeps the key order. A new key is added at the end. |
| PhpArray.PutNewKey | GraphiteZenossBridge.class.php:185 | Assigning a new key appends the pair. |
| PhpArray.PutKeepsUniqueKeys | GraphiteZenossBridge.class.php:149 | Assignment keeps keys distinct. |
| PhpArray.LookupPut | GraphiteZenossBridge.class.php:185 | After `$d[$k] = $v`, `$d[$k]` is `$v` and every other key reads as before. |
| StateFile.StateEntry | GraphiteZenossBridge.class.php:146-149 | The title never holds `|`. A line without `|` is a title with an empty value. |
| StateFile.Load | GraphiteZenossBridge.class.php:144-150 | Loading lines keeps distinct keys distinct and never drops a title already present. |
| StateFile.SerializeLines | GraphiteZenossBridge.class.php:135-144 | Reading back the written file gives one line per alert, each `title|date` followed by its newline. |
| StateFile.StateEntryOfRecord | GraphiteZenossBridge.class.php:137-149 | A written line reads back as its title, and its date with the newline kept. |
| StateFile.LoadRecords | GraphiteZenossBridge.class.php:144-150 | Loading the lines of distinct new titles appends them, in order. |
| StateFile.StateRoundTrip | GraphiteZenossBridge.class.php:129-152 | Write then read gives Alerts back: same titles in the same order, each date followed by the newline `file()` keeps. This holds when titles and dates contain no `|` or newline and titles are distinct. |
| Evaluation.HasMax | GraphiteZenossBridge.class.php:114 | A check is judged only when its Max is set and not 0. |
| Evaluation.BuildQueryString | GraphiteZenossBridge.class.php:103-108 | The query-string loop computes `QueryString` of the checks. |
| Evaluation.QueryStringImplode | GraphiteZenossBridge.class.php:103-108 | The query string is the render window, the raw-data option and one `target=` per check, joined by `&`. |
| Evaluation.QueryTargetsInOrder | GraphiteZenossBridge.class.php:103-108 | Split at `&`, the query string gives the two fixed parameters, then `target=<metric>` for each check in configuration order. This holds when no metric contains `&`. |
| Evaluation.EvaluateUniqueKeys | GraphiteZenossBridge.class.php:112-122 | A run keeps the titles in Alerts distinct. |
| Evaluation.EvaluateKeys | GraphiteZenossBridge.class.php:179-186 | After the check loop, a title is in Alerts exactly when it was there before or some check with that title breaches on this run. |
| Evaluation.EvaluateDates | GraphiteZenossBridge.class.php:185 | Every title breaching on this run maps to this run's date. |
| Evaluation.EvaluateLogLength | GraphiteZenossBridge.class.php:112-122 | Every check with a Max adds exactly one entry to the log. Earlier entries are kept. |
| Evaluation.EvaluateNotes | GraphiteZenossBridge.class.php:179-193 | Every clear in a run is for a title with a non-empty OldAlerts entry. Every Max alert is for a title that breaches on this run. |
| Evaluation.FailedFetchAddsNothing | GraphiteZenossBridge.class.php:159-199 | With no series for any metric and non-negative thresholds, a run adds no title to Alerts. |
| Evaluation.FallbackNeverAlerts | GraphiteZenossBridge.class.php:220-239 | A response that takes the single-line fallback gives no metric any samples, so no check with a Max of at least 0 alerts on it. |
| Evaluation.ReloadedValueNotEmpty | GraphiteZenossBridge.class.php:144-149 | A date read back from the state file keeps its newline, so it is never empty. |
| Evaluation.ReloadedAlertIsCleared | GraphiteZenossBridge.class.php:129-199 | Across two runs: a title written to the state file and now within its threshold is cleared on the next run. |

## Left out

- The HTTP request itself (curl options, the user agent, redirects, basic
  authentication with the Graphite credentials) is not modelled. The
  response is a parameter; a failed request reads as an empty body.
- The senders `SendMaxAlert`, `SendClear`, `SendGraphiteFailAlert` only
  print. Their Zenoss calls are commented out in the source. The model
  records what they print as entries of the notification log. The same
  goes for the "None Alert" print and the "is OK" print.
- `SendMinAlert` and `SendNoneAlert` are never called. The Min and ROC
  checks in `Run` are commented out. None of them is modelled.
- The state file's fixed path, and the `die` when it cannot be opened for
  writing, are not modelled. A file that cannot be read reads as empty.
- `run.php`, the bootstrap that builds the configuration and calls `Run`,
  is not part of this model. It never sets the two globals. So the
  counter starts from null, becomes 1 on the first failure, and exceeds
  the null limit: the first failed request already ends the run.
  `FailureGlobals` takes both values as parameters so that this case and
  any other can be stated.
- PhpStrings.IntCast: does not model exponent notation ("1e3") or the clamping of
  values beyond the 64-bit range. It reads white space, a sign and leading
  decimal digits, which covers the integer and decimal samples Graphite
  returns.
- PhpArray.Put: PHP turns a key that is a decimal integer string into an
  integer key. Titles and metric names are modelled as strings throughout,
  which only differs for purely numeric titles.
- A Max given as a non-integer, and PHP's loose comparison of a sample
  with a non-numeric threshold, are not modelled. Thresholds are integers.
- Bridge.ReadRecords: a line without `|` stores `""` where PHP stores
  null (with a notice). Both are "not set or empty" for the only reader,
  the clear test, so the verdicts are the same.
- Response.SeriesOf: a metric looked up in the flat list of the single-line
  fallback gives no samples. In PHP that lookup is an undefined index, so
  the loop does nothing. A metric named by a small integer would index the
  list; that case is not modelled.
- A failed request under the failure limit keeps the MetricBundle of the
  constructor, an empty array. The run then judges every check against no
  samples (`Evaluation.FailedFetchAddsNothing`, `Series.EmptySeriesVerdict`).
  A check with a negative Max still alerts. No other check alerts, and
  every such check alerted on the previous run is cleared.
