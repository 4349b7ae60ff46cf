/**
 * The GraphiteZenossBridge object: its configuration, the MetricBundle of
 * the current run, the previous and the new alert state and the
 * notifications it has sent, with the methods that update them.
 */
module Bridge {
  import opened Optional
  import opened PhpStrings
  import opened PhpArray
  import opened Series
  import opened Response
  import opened StateFile
  import opened Evaluation

  /** The alert-state file on disk; a missing file reads as empty text. */
  class TextFile {
    var content: string

    constructor (content: string)
      ensures this.content == content
    {
      this.content := content;
    }
  }

  /** The process-wide failure counter and its limit that the request reads from the PHP globals. */
  class FailureGlobals {
    var graphiteFailures: int
    const maxGraphiteFailures: int

    constructor (graphiteFailures: int, maxGraphiteFailures: int)
      ensures this.graphiteFailures == graphiteFailures
      ensures this.maxGraphiteFailures == maxGraphiteFailures
    {
      this.graphiteFailures := graphiteFailures;
      this.maxGraphiteFailures := maxGraphiteFailures;
    }
  }

  /** The credential is present and not empty (the tests at GraphiteZenossBridge.class.php:66-88). */
  predicate Given(credentials: map<string, string>, key: string) {
    key in credentials && !PhpEmpty(credentials[key])
  }

  /** The four credentials the constructor insists on. */
  predicate CredentialsComplete(credentials: map<string, string>) {
    Given(credentials, "zenoss_username") && Given(credentials, "zenoss_password") &&
    Given(credentials, "zenoss_url") && Given(credentials, "graphite_url")
  }

  /** A credential the constructor stores, or the empty string for an unset field. */
  function Stored(credentials: map<string, string>, key: string): string {
    if CredentialsComplete(credentials) && Given(credentials, key) then credentials[key] else ""
  }

  /** What MakeGraphiteRequest ends with: a new bundle, the "Error" return, or exit(). */
  datatype RequestStatus = Fetched | Failed | Exited

  /** The text the state file receives: one `title|date` line per alert, in order. */
  method WriteRecords(alerts: Dict) returns (text: string)
    ensures text == Serialize(alerts)
  {
    text := "";
    for i := 0 to |alerts|
      invariant text == Serialize(alerts[..i])
    {
      SerializeSnoc(alerts[..i], alerts[i]);
      assert alerts[..i + 1] == alerts[..i] + [alerts[i]];
      text := text + alerts[i].0 + "|" + alerts[i].1 + "\n";
    }
    assert alerts[..|alerts|] == alerts;
  }

  /** Assigns every line's `title|date` to `loaded`, line by line. */
  method ReadRecords(start: Dict, lines: seq<string>) returns (loaded: Dict)
    requires UniqueKeys(start)
    ensures UniqueKeys(loaded)
    ensures loaded == Load(start, lines)
  {
    loaded := start;
    for i := 0 to |lines|
      invariant UniqueKeys(loaded)
      invariant Load(loaded, lines[i..]) == Load(start, lines)
    {
      assert lines[i..][1..] == lines[i + 1..];
      var failedDetails := Explode('|', lines[i]);
      var failedDate := if |failedDetails| > 1 then failedDetails[1] else "";
      PutKeepsUniqueKeys(loaded, failedDetails[0], failedDate);
      loaded := Put(loaded, failedDetails[0], failedDate);
    }
  }

  class GraphiteZenossBridge {
    const zenossUserName: string
    const zenossPassword: string
    const zenossUrl: string
    const graphiteUrl: string
    const graphiteUserName: string
    const graphitePassword: string
    const queryBundle: seq<Check>
    /** The date of this run. */
    const date: string

    var metricBundle: Bundle
    /** The failed checks of the last run, read from the state file. */
    var oldAlerts: Dict
    /** The checks failing now, to be written to the state file. */
    var alerts: Dict
    /** Every notification sent and progress line printed, in order. */
    var log: seq<Notification>

    ghost predicate Valid()
      reads this
    {
      UniqueKeys(oldAlerts) && UniqueKeys(alerts)
    }

    /**
     * The constructor. A missing or empty required credential makes it return
     * before anything but the date is stored, so the object then has no
     * checks and no credentials.
     */
    constructor (credentials: map<string, string>, queryBundle: seq<Check>, now: string)
      ensures Valid()
      ensures date == now
      ensures this.queryBundle == if CredentialsComplete(credentials) then queryBundle else []
      ensures zenossUserName == Stored(credentials, "zenoss_username")
      ensures zenossPassword == Stored(credentials, "zenoss_password")
      ensures zenossUrl == Stored(credentials, "zenoss_url")
      ensures graphiteUrl == Stored(credentials, "graphite_url")
      ensures graphiteUserName == Stored(credentials, "graphite_username")
      ensures graphitePassword == Stored(credentials, "graphite_password")
      ensures metricBundle == Keyed(map[]) && oldAlerts == [] && alerts == [] && log == []
    {
      date := now;
      if !CredentialsComplete(credentials) {
        zenossUserName, zenossPassword, zenossUrl, graphiteUrl := "", "", "", "";
        graphiteUserName, graphitePassword := "", "";
        this.queryBundle := [];
      } else {
        zenossUserName := credentials["zenoss_username"];
        zenossPassword := credentials["zenoss_password"];
        zenossUrl := credentials["zenoss_url"];
        graphiteUrl := credentials["graphite_url"];
        graphiteUserName := if Given(credentials, "graphite_username") then credentials["graphite_username"] else "";
        graphitePassword := if Given(credentials, "graphite_password") then credentials["graphite_password"] else "";
        this.queryBundle := queryBundle;
      }
      metricBundle := Keyed(map[]);
      oldAlerts, alerts := [], [];
      log := [];
    }

    /**
     * Writes Alerts to the state file, replacing its text, or reads the file
     * into OldAlerts.
     */
    method ProcessStateFile(write: bool, file: TextFile)
      requires Valid()
      modifies file, this`oldAlerts
      ensures Valid()
      ensures write ==> file.content == Serialize(alerts) && oldAlerts == old(oldAlerts)
      ensures !write ==> oldAlerts == Load(old(oldAlerts), FileLines(old(file.content))) &&
                         file.content == old(file.content)
    {
      if write {
        file.content := WriteRecords(alerts);
      } else {
        oldAlerts := ReadRecords(oldAlerts, FileLines(file.content));
      }
    }

    /** Judges one check against its Max and records the outcome. */
    method CheckForMaxValues(title: string, metric: string, threshold: int, severity: int)
      requires Valid()
      modifies this`alerts, this`log
      ensures Valid()
      ensures Outcome(alerts, log) ==
              CheckEffect(title, metric, threshold, severity, metricBundle, oldAlerts, date, Outcome(old(alerts), old(log)))
    {
      var maxValue, noneCounter := ScanSeries(SeriesOf(metricBundle, metric));
      ghost var verdict := Judge(SeriesOf(metricBundle, metric), threshold, Lookup(oldAlerts, title));
      if noneCounter > MaxNoneAllowed {
        assert verdict.TooManyNone?;
        log := log + [NoneAlert];
      } else if maxValue > threshold {
        assert verdict == OverMax(maxValue);
        log := log + [MaxAlert(title, maxValue, threshold, metric, severity)];
        PutKeepsUniqueKeys(alerts, title, date);
        alerts := Put(alerts, title, date);
      } else {
        var previous := Lookup(oldAlerts, title);
        if previous.Some? && !PhpEmpty(previous.value) {
          assert verdict.Recovered?;
          log := log + [Clear(title)];
        } else {
          assert verdict == StillOk(maxValue);
          log := log + [OkNote(title, maxValue)];
        }
      }
    }

    /**
     * Asks Graphite (`graphite` maps a URL to the response text) and parses
     * the answer into the MetricBundle; an answer that does not parse counts
     * one failure, and one failure too many sends the fail alert and ends the
     * run.
     */
    method MakeGraphiteRequest(query: string, graphite: string -> string, globals: FailureGlobals)
      returns (status: RequestStatus)
      modifies this`metricBundle, this`log, globals`graphiteFailures
      ensures var parsed := ParseResponse(graphite(graphiteUrl + query));
              && metricBundle == (if parsed.Some? then parsed.value else old(metricBundle))
              && globals.graphiteFailures == old(globals.graphiteFailures) + (if parsed.None? then 1 else 0)
              && status == (if parsed.Some? then Fetched
                            else if globals.graphiteFailures > globals.maxGraphiteFailures then Exited
                            else Failed)
              && log == old(log) + (if status == Exited then [GraphiteFailAlert] else [])
    {
      var output := graphite(graphiteUrl + query);
      var arrayTest := Explode('\n', output);
      if |arrayTest| > 1 && !PhpEmpty(arrayTest[1]) {
        var series := ParseLines(arrayTest);
        metricBundle := Keyed(series);
        status := Fetched;
      } else {
        var parts := Explode('|', output);
        if |parts| > 1 {
          metricBundle := Flat(Explode(',', parts[1]));
          status := Fetched;
        } else {
          globals.graphiteFailures := globals.graphiteFailures + 1;
          if globals.graphiteFailures > globals.maxGraphiteFailures {
            log := log + [GraphiteFailAlert];
            status := Exited;
          } else {
            status := Failed;
          }
        }
      }
    }

    /** The check loop of Run: every check with a Max, in configuration order. */
    method EvaluateChecks()
      requires Valid()
      modifies this`alerts, this`log
      ensures Valid()
      ensures Outcome(alerts, log) == Evaluate(queryBundle, metricBundle, oldAlerts, date, Outcome(old(alerts), old(log)))
    {
      ghost var start := Outcome(alerts, log);
      for i := 0 to |queryBundle|
        invariant Valid()
        invariant Outcome(alerts, log) == Evaluate(queryBundle[..i], metricBundle, oldAlerts, date, start)
      {
        assert queryBundle[..i + 1][..i] == queryBundle[..i];
        var config := queryBundle[i];
        ghost var before := Outcome(alerts, log);
        if HasMax(config) {
          CheckForMaxValues(config.title, config.metric, config.max.value, config.severity);
        }
        assert Outcome(alerts, log) == Step(config, metricBundle, oldAlerts, date, before);
      }
      assert queryBundle[..|queryBundle|] == queryBundle;
    }

    /**
     * One run: read the previous state, query Graphite for every check,
     * judge every check that has a Max and write the new state, unless the
     * request ended the run, which leaves the state file as it was.
     */
    method Run(graphite: string -> string, file: TextFile, globals: FailureGlobals) returns (exited: bool)
      requires Valid()
      modifies this`oldAlerts, this`alerts, this`metricBundle, this`log, file, globals`graphiteFailures
      ensures Valid()
      ensures oldAlerts == Load(old(oldAlerts), FileLines(old(file.content)))
      ensures var parsed := ParseResponse(graphite(graphiteUrl + QueryString(queryBundle)));
              && globals.graphiteFailures == old(globals.graphiteFailures) + (if parsed.None? then 1 else 0)
              && metricBundle == (if parsed.Some? then parsed.value else old(metricBundle))
              && exited == (parsed.None? && globals.graphiteFailures > globals.maxGraphiteFailures)
      ensures exited ==> alerts == old(alerts) && log == old(log) + [GraphiteFailAlert] &&
                         file.content == old(file.content)
      ensures !exited ==> Outcome(alerts, log) ==
                          Evaluate(queryBundle, metricBundle, oldAlerts, date, Outcome(old(alerts), old(log))) &&
                          file.content == Serialize(alerts)
    {
      ProcessStateFile(false, file);
      var graphiteQueryString := BuildQueryString(queryBundle);
      var status := MakeGraphiteRequest(graphiteQueryString, graphite, globals);
      if status == Exited {
        return true;
      }
      assert log == old(log) && alerts == old(alerts);
      EvaluateChecks();
      ProcessStateFile(true, file);
      exited := false;
    }
  }
}
