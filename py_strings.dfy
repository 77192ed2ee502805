/** The two Python string operations the citation code relies on:
    `s.split(d)` with a one-character separator and `sep.join(parts)`. */
module PyStrings {

  /** `s.split(d)`: the maximal runs of `s` between occurrences of `d`.
      Like Python, it always yields at least one piece ("" splits to [""]). */
  function Split(s: string, d: char): (parts: seq<string>)
    ensures |parts| >= 1
    ensures forall i :: 0 <= i < |parts| ==> d !in parts[i]
    decreases |s|
  {
    if s == [] then [""]
    else
      var rest := Split(s[1..], d);
      if s[0] == d then [""] + rest
      else [[s[0]] + rest[0]] + rest[1..]
  }

  /** `sep.join(parts)`. */
  function Join(parts: seq<string>, sep: string): (r: string)
    ensures parts == [] ==> r == ""
    ensures parts != [] ==> |parts[0]| <= |r| && r[..|parts[0]|] == parts[0]
    decreases |parts|
  {
    if parts == [] then ""
    else if |parts| == 1 then parts[0]
    else parts[0] + sep + Join(parts[1..], sep)
  }

  /** Joining the pieces of a split with the separator gives back the string. */
  lemma {:induction false} JoinSplit(s: string, d: char)
    ensures Join(Split(s, d), [d]) == s
    decreases |s|
  {
    if s != [] {
      var rest := Split(s[1..], d);
      JoinSplit(s[1..], d);
      if s[0] == d {
        var parts := [""] + rest;
        assert parts[1..] == rest;
        assert Join(parts, [d]) == "" + [d] + Join(rest, [d]);
        assert s == [s[0]] + s[1..];
      } else {
        var parts := [[s[0]] + rest[0]] + rest[1..];
        if |rest| == 1 {
          assert s == [s[0]] + s[1..];
        } else {
          assert parts[1..] == rest[1..];
          assert Join(rest, [d]) == rest[0] + [d] + Join(rest[1..], [d]);
          assert s == [s[0]] + s[1..];
        }
      }
    }
  }

  /** The last piece of a split is the suffix of `s` after the last `d`:
      the whole string when `d` does not occur, otherwise a suffix that is
      preceded by a `d`. */
  lemma {:induction false} SplitLast(s: string, d: char)
    ensures var p := Split(s, d); var l := p[|p| - 1];
      && |l| <= |s| && s[|s| - |l|..] == l
      && (|p| == 1 ==> l == s)
      && (|p| > 1 ==> |l| < |s| && s[|s| - |l| - 1] == d)
    decreases |s|
  {
    if s != [] {
      SplitLast(s[1..], d);
      assert s == [s[0]] + s[1..];
    }
  }

  /** `s.split(d)[-1]`: the text after the last `d`. The three clauses
      characterise it: it holds no `d`, it ends `s`, and it is either all of
      `s` or is preceded in `s` by a `d`. */
  function LastSegment(s: string, d: char): (r: string)
    ensures d !in r
    ensures |r| <= |s| && s[|s| - |r|..] == r
    ensures |r| < |s| ==> s[|s| - |r| - 1] == d
  {
    SplitLast(s, d);
    var p := Split(s, d);
    p[|p| - 1]
  }

  /** The three clauses of `LastSegment` pick out exactly one suffix. */
  lemma LastSegmentUnique(s: string, d: char, t: string)
    requires d !in t
    requires |t| <= |s| && s[|s| - |t|..] == t
    requires |t| < |s| ==> s[|s| - |t| - 1] == d
    ensures LastSegment(s, d) == t
  {
  }
}
