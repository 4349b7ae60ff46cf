/**
 * The parsing half of MakeGraphiteRequest: Graphite's raw-data text
 * (`target,start,end,step|v1,v2,...` per line) becomes the MetricBundle, the
 * sample tokens of every metric keyed by target name.
 */
module Response {
  import opened Optional
  import opened PhpStrings

  /**
   * The MetricBundle. A multi-line response gives a map from target name to
   * tokens; the single-line fallback leaves a plain list of tokens, in which
   * looking up a metric name finds no list of samples.
   */
  datatype Bundle = Keyed(series: map<string, seq<string>>) | Flat(tokens: seq<string>)

  /** The tokens the sample scan visits for a metric (line 159); a missing metric has none. */
  function SeriesOf(b: Bundle, metric: string): seq<string> {
    match b
    case Keyed(m) => if metric in m then m[metric] else []
    case Flat(_) => []
  }

  /**
   * One line of a multi-line response: the text before the first `,` of the
   * header (the part before the first `|`) names the target, and the part
   * between the first and second `|`, split at `,`, gives the samples; a
   * line whose data part is missing or empty contributes nothing.
   */
  function LineEntry(line: string): Option<(string, seq<string>)> {
    var temp := Explode('|', line);
    if |temp| > 1 && !PhpEmpty(temp[1]) then Some((Explode(',', temp[0])[0], Explode(',', temp[1])))
    else None
  }

  /** The map built line after line; a target seen again replaces the earlier entry. */
  function KeyedSeries(lines: seq<string>): map<string, seq<string>> {
    if lines == [] then map[]
    else
      var m := KeyedSeries(lines[..|lines| - 1]);
      match LineEntry(lines[|lines| - 1])
      case Some(entry) => m[entry.0 := entry.1]
      case None => m
  }

  /** The loop that builds the keyed bundle from the response's lines. */
  method ParseLines(lines: seq<string>) returns (output: map<string, seq<string>>)
    ensures output == KeyedSeries(lines)
  {
    output := map[];
    for i := 0 to |lines|
      invariant output == KeyedSeries(lines[..i])
    {
      assert lines[..i + 1][..i] == lines[..i];
      var temp := Explode('|', lines[i]);
      var lineDetails := Explode(',', temp[0]);
      if |temp| > 1 && !PhpEmpty(temp[1]) {
        output := output[lineDetails[0] := Explode(',', temp[1])];
      }
    }
    assert lines[..|lines|] == lines;
  }

  /** The response has a second line that is not empty (line 221), which selects the multi-line parse. */
  predicate MultiLine(output: string) {
    var lines := Explode('\n', output);
    |lines| > 1 && !PhpEmpty(lines[1])
  }

  /**
   * The whole parse: the multi-line branch when the response has a second
   * line that is not empty, else the single-line fallback when the text has a
   * `|`, else nothing (a failed request). It fails exactly when neither
   * branch applies.
   */
  function ParseResponse(output: string): (r: Option<Bundle>)
    ensures r.None? <==> !MultiLine(output) && '|' !in output
  {
    var lines := Explode('\n', output);
    if |lines| > 1 && !PhpEmpty(lines[1]) then Some(Keyed(KeyedSeries(lines)))
    else
      var parts := Explode('|', output);
      ExplodeSplits('|', output);
      if |parts| > 1 then Some(Flat(Explode(',', parts[1]))) else None
  }

  /**
   * Without a second non-empty line the fallback decides: a `|` anywhere
   * gives the flat list of the comma-separated text after the first `|` (up
   * to any second one), and no `|` is a failure.
   */
  lemma FallbackBranch(output: string)
    requires !MultiLine(output)
    ensures |Explode('|', output)| > 1 <==> '|' in output
    ensures ParseResponse(output) ==
            if '|' in output then Some(Flat(Explode(',', Explode('|', output)[1]))) else None
  {
    ExplodeSplits('|', output);
  }

  /** A target is in the bundle exactly when some line names it with data. */
  lemma {:induction false} KeyedSeriesKeys(lines: seq<string>, k: string)
    ensures k in KeyedSeries(lines) <==>
            exists i :: 0 <= i < |lines| && LineEntry(lines[i]).Some? && LineEntry(lines[i]).value.0 == k
  {
    if lines != [] {
      var pre := lines[..|lines| - 1];
      KeyedSeriesKeys(pre, k);
      assert forall i :: 0 <= i < |pre| ==> lines[i] == pre[i];
    }
  }

  /** A target's samples are those of the last line that names it with data. */
  lemma {:induction false} KeyedSeriesLastWins(lines: seq<string>, k: string)
    requires k in KeyedSeries(lines)
    ensures exists i :: 0 <= i < |lines| && LineEntry(lines[i]) == Some((k, KeyedSeries(lines)[k])) &&
              forall j :: i < j < |lines| ==> LineEntry(lines[j]).None? || LineEntry(lines[j]).value.0 != k
  {
    var n := |lines| - 1;
    var pre := lines[..n];
    var e := LineEntry(lines[n]);
    if e.Some? && e.value.0 == k {
      assert LineEntry(lines[n]) == Some((k, KeyedSeries(lines)[k]));
    } else {
      assert KeyedSeries(lines) == KeyedSeries(pre) || KeyedSeries(lines) == KeyedSeries(pre)[e.value.0 := e.value.1];
      assert k in KeyedSeries(pre) && KeyedSeries(lines)[k] == KeyedSeries(pre)[k];
      KeyedSeriesLastWins(pre, k);
      var i :| 0 <= i < |pre| && LineEntry(pre[i]) == Some((k, KeyedSeries(pre)[k])) &&
        forall j :: i < j < |pre| ==> LineEntry(pre[j]).None? || LineEntry(pre[j]).value.0 != k;
      assert lines[i] == pre[i];
      forall j | i < j < |lines| ensures LineEntry(lines[j]).None? || LineEntry(lines[j]).value.0 != k {
        if j < n {
          assert lines[j] == pre[j];
        }
      }
    }
  }

  /**
   * Target names are cut at the first `,`: a metric whose expression holds a
   * comma (`sumSeries(a,b)`, say) is never found in a keyed bundle.
   */
  lemma {:induction false} KeysHaveNoComma(lines: seq<string>, metric: string)
    requires ',' in metric
    ensures metric !in KeyedSeries(lines)
  {
    KeyedSeriesKeys(lines, metric);
    forall i | 0 <= i < |lines| && LineEntry(lines[i]).Some? ensures LineEntry(lines[i]).value.0 != metric {
      ExplodeNoDelimiter(',', Explode('|', lines[i])[0]);
    }
  }

  /**
   * A one-line response `header|data`, with or without the newline Graphite
   * ends its lines with, is parsed by the fallback into the comma-separated
   * data; the newline stays on the last token.
   */
  lemma SingleLineFallback(header: string, data: string)
    requires '|' !in header && '|' !in data
    requires '\n' !in header && '\n' !in data
    ensures ParseResponse(header + "|" + data) == Some(Flat(Explode(',', data)))
    ensures ParseResponse(header + "|" + data + "\n") == Some(Flat(Explode(',', data + "\n")))
  {
    var line := header + "|" + data;
    assert line == header + ['|'] + data;
    ExplodeCons('|', header, data);
    ExplodeWithout('|', data);
    assert '\n' !in line;
    ExplodeWithout('\n', line);
    FallbackBranch(line);

    var output := line + "\n";
    assert output == header + ['|'] + (data + "\n");
    ExplodeCons('|', header, data + "\n");
    ExplodeWithout('|', data + "\n");
    NewlineEnds(line);
    FallbackBranch(output);
  }

  /** One line and its newline: the second piece is empty, so the multi-line branch is not taken. */
  lemma NewlineEnds(line: string)
    requires '\n' !in line
    ensures Explode('\n', line + "\n") == [line, ""]
    ensures !MultiLine(line + "\n")
  {
    assert line + "\n" == line + ['\n'] + "";
    ExplodeCons('\n', line, "");
  }

  /** A response of one line without `|`, newline-terminated or not, does not parse. */
  lemma NoBarNoParse(body: string)
    requires '|' !in body
    requires '\n' !in body
    ensures ParseResponse(body).None?
    ensures ParseResponse(body + "\n").None?
  {
    ExplodeWithout('\n', body);
    NewlineEnds(body);
    assert '|' !in body + "\n";
  }
}
