/**
 * The alert-state file of ProcessStateFile: one `Title|Date` line per alert,
 * written from Alerts at the end of a run and read into OldAlerts at the
 * start of the next one.
 */
module StateFile {
  import opened PhpStrings
  import opened PhpArray

  /** One record without its newline: `"$Title|$Date"`. */
  function Record(e: (string, string)): string {
    e.0 + "|" + e.1
  }

  function Records(d: Dict): (rs: seq<string>)
    ensures |rs| == |d|
    ensures forall i :: 0 <= i < |d| ==> rs[i] == Record(d[i])
  {
    if d == [] then [] else [Record(d[0])] + Records(d[1..])
  }

  /** The file's text after the write loop: every record followed by a newline, in array order. */
  function Serialize(d: Dict): string {
    Terminated(Records(d))
  }

  lemma SerializeSnoc(d: Dict, e: (string, string))
    ensures Serialize(d + [e]) == Serialize(d) + Record(e) + "\n"
  {
    assert Records(d + [e]) == Records(d) + [Record(e)];
    TerminatedSnoc(Records(d), Record(e));
  }

  /**
   * One line read back: the first `|` field is the title, the second the
   * value (the rest of the line up to any further `|`, its newline included);
   * a line without `|` gives an empty value, as PHP's missing index does.
   */
  function StateEntry(line: string): (e: (string, string))
    ensures '|' !in e.0
    ensures '|' !in line ==> e == (line, "")
  {
    var fields := Explode('|', line);
    ExplodeNoDelimiter('|', line);
    assert '|' !in line ==> fields == [line] by {
      if '|' !in line {
        ExplodeWithout('|', line);
      }
    }
    (fields[0], if |fields| > 1 then fields[1] else "")
  }

  /** The read loop: every line assigned into the array in file order. */
  function Load(d: Dict, lines: seq<string>): (r: Dict)
    ensures UniqueKeys(d) ==> UniqueKeys(r)
    ensures forall k :: k in Keys(d) ==> k in Keys(r)
    decreases lines
  {
    if lines == [] then d
    else
      var e := StateEntry(lines[0]);
      assert UniqueKeys(d) ==> UniqueKeys(Put(d, e.0, e.1)) by {
        if UniqueKeys(d) {
          PutKeepsUniqueKeys(d, e.0, e.1);
        }
      }
      Load(Put(d, e.0, e.1), lines[1..])
  }

  predicate Plain(s: string) {
    '|' !in s && '\n' !in s
  }

  /** Every entry of the array with a title and a date that hold no `|` and no newline. */
  predicate PlainEntries(d: Dict) {
    forall i :: 0 <= i < |d| ==> Plain(d[i].0) && Plain(d[i].1)
  }

  /** The array as reading its own file back gives it: every value followed by the line's newline. */
  function WithNewlineValues(d: Dict): (r: Dict)
    ensures |r| == |d|
    ensures forall i :: 0 <= i < |d| ==> r[i] == (d[i].0, d[i].1 + "\n")
  {
    if d == [] then [] else [(d[0].0, d[0].1 + "\n")] + WithNewlineValues(d[1..])
  }

  /** The write emits exactly one line per entry. */
  lemma SerializeLines(d: Dict)
    requires PlainEntries(d)
    ensures FileLines(Serialize(d)) == WithNewlines(Records(d))
    ensures |FileLines(Serialize(d))| == |d|
  {
    var rs := Records(d);
    forall i | 0 <= i < |rs| ensures '\n' !in rs[i] {
      assert rs[i] == d[i].0 + ['|'] + d[i].1;
    }
    FileLinesTerminated(rs);
  }

  lemma StateEntryOfRecord(e: (string, string))
    requires Plain(e.0) && Plain(e.1)
    ensures StateEntry(Record(e) + "\n") == (e.0, e.1 + "\n")
  {
    assert Record(e) + "\n" == e.0 + ['|'] + (e.1 + "\n");
    ExplodeCons('|', e.0, e.1 + "\n");
    ExplodeWithout('|', e.1 + "\n");
  }

  lemma {:induction false} LoadRecords(d: Dict, a: Dict)
    requires PlainEntries(a) && UniqueKeys(a)
    requires forall i :: 0 <= i < |a| ==> a[i].0 !in Keys(d)
    ensures Load(d, WithNewlines(Records(a))) == d + WithNewlineValues(a)
    decreases a
  {
    if a != [] {
      var e := a[0];
      var lines := WithNewlines(Records(a));
      var d' := d + [(e.0, e.1 + "\n")];
      var rest := WithNewlineValues(a[1..]);
      calc {
        Load(d, lines);
        { LoadFirstRecord(d, a); }
        Load(d', lines[1..]);
        { assert lines[1..] == WithNewlines(Records(a[1..]));
          LoadRecordsStep(d, a);
          LoadRecords(d', a[1..]); }
        d' + rest;
        { AppendFirst(d, a); }
        d + WithNewlineValues(a);
      }
    }
  }

  lemma AppendFirst(d: Dict, a: Dict)
    requires a != []
    ensures d + [(a[0].0, a[0].1 + "\n")] + WithNewlineValues(a[1..]) == d + WithNewlineValues(a)
  {
    assert WithNewlineValues(a) == [(a[0].0, a[0].1 + "\n")] + WithNewlineValues(a[1..]);
  }

  lemma LoadFirstRecord(d: Dict, a: Dict)
    requires a != [] && Plain(a[0].0) && Plain(a[0].1) && a[0].0 !in Keys(d)
    ensures Load(d, WithNewlines(Records(a))) == Load(d + [(a[0].0, a[0].1 + "\n")], WithNewlines(Records(a))[1..])
  {
    var e := a[0];
    var lines := WithNewlines(Records(a));
    assert lines[0] == Record(e) + "\n";
    StateEntryOfRecord(e);
    PutNewKey(d, e.0, e.1 + "\n");
  }

  lemma LoadRecordsStep(d: Dict, a: Dict)
    requires a != []
    requires PlainEntries(a) && UniqueKeys(a)
    requires forall i :: 0 <= i < |a| ==> a[i].0 !in Keys(d)
    ensures PlainEntries(a[1..]) && UniqueKeys(a[1..])
    ensures forall i :: 0 <= i < |a[1..]| ==> a[1..][i].0 !in Keys(d + [(a[0].0, a[0].1 + "\n")])
  {
    var d' := d + [(a[0].0, a[0].1 + "\n")];
    assert Keys(d') == Keys(d) + [a[0].0];
    forall i | 0 <= i < |a[1..]| ensures a[1..][i].0 !in Keys(d') {
      assert a[1..][i] == a[i + 1];
    }
  }

  /**
   * Reading back what was written gives the same titles in the same order,
   * each value having gained the line's newline, when no title or date holds
   * a `|` or a newline.
   */
  lemma StateRoundTrip(alerts: Dict)
    requires PlainEntries(alerts) && UniqueKeys(alerts)
    ensures Load([], FileLines(Serialize(alerts))) == WithNewlineValues(alerts)
    ensures Keys(Load([], FileLines(Serialize(alerts)))) == Keys(alerts)
  {
    SerializeLines(alerts);
    LoadRecords([], alerts);
  }
}
