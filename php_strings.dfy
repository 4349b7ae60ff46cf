/**
 * The PHP string built-ins the bridge relies on: explode() with a
 * one-character delimiter, file() (a text split into lines that keep their
 * newline), empty() on a string, and the (int) cast of a sample token.
 */
module PhpStrings {

  /** explode(d, s): the pieces of `s` between occurrences of `d`. */
  function Explode(d: char, s: string): (parts: seq<string>)
    ensures |parts| >= 1
  {
    if s == [] then [""]
    else
      var rest := Explode(d, s[1..]);
      if s[0] == d then [""] + rest
      else [[s[0]] + rest[0]] + rest[1..]
  }

  /** No piece holds the delimiter. */
  lemma {:induction false} ExplodeNoDelimiter(d: char, s: string)
    ensures forall i :: 0 <= i < |Explode(d, s)| ==> d !in Explode(d, s)[i]
  {
    if s != [] {
      ExplodeNoDelimiter(d, s[1..]);
    }
  }

  /** The text splits into more than one piece exactly when it holds the delimiter. */
  lemma ExplodeSplits(d: char, s: string)
    ensures |Explode(d, s)| > 1 <==> d in s
  {
    if d !in s {
      ExplodeWithout(d, s);
    } else {
      ImplodeExplode(d, s);
      ExplodeNoDelimiter(d, s);
    }
  }

  /** implode(d, parts): the inverse of explode. */
  function Implode(d: char, parts: seq<string>): string
    requires |parts| >= 1
  {
    if |parts| == 1 then parts[0] else parts[0] + [d] + Implode(d, parts[1..])
  }

  /** Gluing the pieces back together gives the original text. */
  lemma {:induction false} ImplodeExplode(d: char, s: string)
    ensures Implode(d, Explode(d, s)) == s
  {
    if s != [] {
      var rest := Explode(d, s[1..]);
      ImplodeExplode(d, s[1..]);
      if s[0] != d {
        if |rest| == 1 {
          assert Implode(d, Explode(d, s)) == [s[0]] + rest[0];
        } else {
          assert Implode(d, rest) == rest[0] + [d] + Implode(d, rest[1..]);
          assert Implode(d, Explode(d, s)) == ([s[0]] + rest[0]) + [d] + Implode(d, rest[1..]);
        }
      }
    }
  }

  /** A text without the delimiter explodes into itself. */
  lemma {:induction false} ExplodeWithout(d: char, x: string)
    requires d !in x
    ensures Explode(d, x) == [x]
  {
    if x != [] {
      assert d !in x[1..];
      ExplodeWithout(d, x[1..]);
      assert [x[0]] + x[1..] == x;
    }
  }

  /** The first piece ends at the first delimiter. */
  lemma {:induction false} ExplodeCons(d: char, x: string, y: string)
    requires d !in x
    ensures Explode(d, x + [d] + y) == [x] + Explode(d, y)
  {
    if x == [] {
      assert x + [d] + y == [d] + y;
      assert ([d] + y)[1..] == y;
    } else {
      assert (x + [d] + y)[1..] == x[1..] + [d] + y;
      assert d !in x[1..];
      ExplodeCons(d, x[1..], y);
      assert [x[0]] + x[1..] == x;
    }
  }

  /** Exploding what was imploded gives back the pieces, when none holds the delimiter. */
  lemma {:induction false} ExplodeImplode(d: char, parts: seq<string>)
    requires |parts| >= 1
    requires forall i :: 0 <= i < |parts| ==> d !in parts[i]
    ensures Explode(d, Implode(d, parts)) == parts
  {
    if |parts| == 1 {
      ExplodeWithout(d, parts[0]);
    } else {
      ExplodeImplode(d, parts[1..]);
      ExplodeCons(d, parts[0], Implode(d, parts[1..]));
      assert [parts[0]] + parts[1..] == parts;
    }
  }

  /** Appending one more piece adds the delimiter and the piece. */
  lemma {:induction false} ImplodeSnoc(d: char, parts: seq<string>, x: string)
    requires |parts| >= 1
    ensures Implode(d, parts + [x]) == Implode(d, parts) + [d] + x
  {
    if |parts| > 1 {
      assert (parts + [x])[1..] == parts[1..] + [x];
      ImplodeSnoc(d, parts[1..], x);
    }
  }

  /** PHP's empty() on a string value: the empty string and "0" are empty. */
  predicate PhpEmpty(s: string) {
    s == "" || s == "0"
  }

  /** Each text followed by a newline, all concatenated. */
  function Terminated(xs: seq<string>): string {
    if xs == [] then "" else xs[0] + "\n" + Terminated(xs[1..])
  }

  lemma {:induction false} TerminatedSnoc(xs: seq<string>, x: string)
    ensures Terminated(xs + [x]) == Terminated(xs) + x + "\n"
  {
    if xs == [] {
      assert xs + [x] == [x];
    } else {
      assert (xs + [x])[1..] == xs[1..] + [x];
      TerminatedSnoc(xs[1..], x);
    }
  }

  /** Every text with its newline put back. */
  function WithNewlines(xs: seq<string>): (ys: seq<string>)
    ensures |ys| == |xs|
    ensures forall i :: 0 <= i < |xs| ==> ys[i] == xs[i] + "\n"
  {
    if xs == [] then [] else [xs[0] + "\n"] + WithNewlines(xs[1..])
  }

  /**
   * PHP's file(): the lines of a text, each keeping its newline; a last
   * line without a newline is kept as it is, an empty one is dropped.
   */
  function FileLines(content: string): (lines: seq<string>)
    ensures content == "" ==> lines == []
  {
    LinesOf(Explode('\n', content))
  }

  /** The lines of file() from the pieces of the text between newlines. */
  function LinesOf(ps: seq<string>): seq<string>
    requires |ps| >= 1
  {
    var last := ps[|ps| - 1];
    WithNewlines(ps[..|ps| - 1]) + (if last == "" then [] else [last])
  }

  lemma {:induction false} ExplodeTerminated(xs: seq<string>)
    requires forall i :: 0 <= i < |xs| ==> '\n' !in xs[i]
    ensures Explode('\n', Terminated(xs)) == xs + [""]
  {
    if xs != [] {
      ExplodeTerminated(xs[1..]);
      ExplodeCons('\n', xs[0], Terminated(xs[1..]));
      assert xs[0] + "\n" + Terminated(xs[1..]) == xs[0] + ['\n'] + Terminated(xs[1..]);
      assert [xs[0]] + (xs[1..] + [""]) == xs + [""];
    }
  }

  /** Reading back lines that were written one per newline gives those lines. */
  lemma FileLinesTerminated(xs: seq<string>)
    requires forall i :: 0 <= i < |xs| ==> '\n' !in xs[i]
    ensures FileLines(Terminated(xs)) == WithNewlines(xs)
  {
    var ps := xs + [""];
    calc {
      FileLines(Terminated(xs));
      LinesOf(Explode('\n', Terminated(xs)));
      { ExplodeTerminated(xs); }
      LinesOf(ps);
      { assert ps[..|ps| - 1] == xs && ps[|ps| - 1] == ""; }
      WithNewlines(xs) + [];
      WithNewlines(xs);
    }
  }

  // ---- the (int) cast of a sample token ----

  predicate IsDigit(c: char) {
    '0' <= c <= '9'
  }

  predicate IsSpace(c: char) {
    c == ' ' || c == '\t' || c == '\n' || c == '\r' || c == '\U{000B}' || c == '\U{000C}'
  }

  function SkipSpace(s: string): string {
    if s != [] && IsSpace(s[0]) then SkipSpace(s[1..]) else s
  }

  /** The longest prefix of `s` made of decimal digits. */
  function LeadingDigits(s: string): (ds: string)
    ensures |ds| <= |s| && ds == s[..|ds|]
    ensures forall i :: 0 <= i < |ds| ==> IsDigit(ds[i])
    ensures (forall i :: 0 <= i < |s| ==> IsDigit(s[i])) ==> ds == s
  {
    if s != [] && IsDigit(s[0]) then [s[0]] + LeadingDigits(s[1..]) else ""
  }

  /** The value of a string of decimal digits, most significant first. */
  function DigitsValue(ds: string): (n: nat) {
    if ds == [] then 0
    else 10 * DigitsValue(ds[..|ds| - 1]) + (if IsDigit(ds[|ds| - 1]) then ds[|ds| - 1] as int - '0' as int else 0)
  }

  /**
   * The integer value of a numeric token: leading white space, an optional
   * sign and the leading decimal digits; anything from the first other
   * character on (a decimal point, for one) is dropped, so the value is
   * truncated toward zero, and a token with no digits is 0.
   */
  function IntCast(t: string): (r: int)
    ensures r < 0 ==> SkipSpace(t) != [] && SkipSpace(t)[0] == '-'
    ensures (forall i :: 0 <= i < |t| ==> IsDigit(t[i])) ==> r == DigitsValue(t)
  {
    var u := SkipSpace(t);
    if u != [] && u[0] == '-' then 0 - DigitsValue(LeadingDigits(u[1..]))
    else if u != [] && u[0] == '+' then DigitsValue(LeadingDigits(u[1..]))
    else DigitsValue(LeadingDigits(u))
  }
}
