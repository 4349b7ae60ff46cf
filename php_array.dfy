/**
 * A PHP array used as an ordered dictionary: one entry per key, kept in
 * insertion order; assigning to a key already present replaces its value
 * where it stands, and assigning to a new key appends it at the end. The bridge's alert arrays map
 * a check title to a date, so keys and values are strings.
 */
module PhpArray {
  import opened Optional

  type Dict = seq<(string, string)>

  /** The keys, in the array's order. */
  function Keys(d: Dict): (ks: seq<string>)
    ensures |ks| == |d|
    ensures forall i :: 0 <= i < |d| ==> ks[i] == d[i].0
  {
    if d == [] then [] else [d[0].0] + Keys(d[1..])
  }

  ghost predicate UniqueKeys(d: Dict) {
    forall i, j :: 0 <= i < j < |d| ==> d[i].0 != d[j].0
  }

  /** The value stored under a key, or None when the key is not set. */
  function Lookup(d: Dict, k: string): (r: Option<string>)
    ensures r.Some? <==> k in Keys(d)
    ensures r.Some? ==> exists i :: 0 <= i < |d| && d[i] == (k, r.value)
  {
    if d == [] then None
    else if d[0].0 == k then Some(d[0].1)
    else
      var r := Lookup(d[1..], k);
      assert r.Some? ==> exists i :: 0 <= i < |d| && d[i] == (k, r.value) by {
        if r.Some? {
          var i :| 0 <= i < |d[1..]| && d[1..][i] == (k, r.value);
          assert d[i + 1] == (k, r.value);
        }
      }
      r
  }

  /** Assigning a value to a key. */
  function Put(d: Dict, k: string, v: string): (r: Dict)
    ensures Keys(r) == if k in Keys(d) then Keys(d) else Keys(d) + [k]
  {
    if d == [] then [(k, v)]
    else if d[0].0 == k then [(k, v)] + d[1..]
    else
      var r := [d[0]] + Put(d[1..], k, v);
      assert r[1..] == Put(d[1..], k, v);
      r
  }

  /** A new key is appended at the end. */
  lemma {:induction false} PutNewKey(d: Dict, k: string, v: string)
    requires k !in Keys(d)
    ensures Put(d, k, v) == d + [(k, v)]
  {
    if d != [] {
      var tail := d[1..];
      assert d[0].0 != k by {
        assert Keys(d)[0] == d[0].0;
      }
      assert k !in Keys(tail) by {
        forall i | 0 <= i < |tail| ensures Keys(tail)[i] != k {
          assert Keys(tail)[i] == Keys(d)[i + 1];
        }
      }
      PutNewKey(tail, k, v);
      calc {
        Put(d, k, v);
        [d[0]] + Put(tail, k, v);
        [d[0]] + (tail + [(k, v)]);
        { assert d == [d[0]] + tail; }
        d + [(k, v)];
      }
    }
  }

  /** Assigning a key keeps the keys distinct. */
  lemma PutKeepsUniqueKeys(d: Dict, k: string, v: string)
    requires UniqueKeys(d)
    ensures UniqueKeys(Put(d, k, v))
  {
    var r := Put(d, k, v);
    var ks := Keys(r);
    forall i, j | 0 <= i < j < |r| ensures r[i].0 != r[j].0 {
      assert ks[i] == r[i].0 && ks[j] == r[j].0;
      if k !in Keys(d) && j == |d| {
        assert ks[i] == Keys(d)[i];
      } else {
        assert ks[i] == Keys(d)[i] && ks[j] == Keys(d)[j];
      }
    }
  }

  /** After assigning `v` to `k`, `k` reads `v` and every other key reads as before. */
  lemma {:induction false} LookupPut(d: Dict, k: string, v: string, j: string)
    ensures Lookup(Put(d, k, v), j) == if j == k then Some(v) else Lookup(d, j)
  {
    if d != [] && d[0].0 != k {
      LookupPut(d[1..], k, v, j);
    }
  }
}
