/**
 * Python's `str.split(sep)` and `sep.join(parts)` for a one-character
 * separator, and the character substitution they amount to together.
 */
module Strings {

  /**
   * `s.split(sep)`: the pieces between the occurrences of `sep`, empty pieces
   * included, so there is always one more piece than there are separators.
   */
  function Split(s: string, sep: char): (parts: seq<string>)
    ensures |parts| == 1 + Count(s, sep)
    ensures forall k :: 0 <= k < |parts| ==> sep !in parts[k]
    decreases |s|
  {
    if s == [] then [[]]
    else
      var rest := Split(s[1..], sep);
      if s[0] == sep then [[]] + rest
      else [[s[0]] + rest[0]] + rest[1..]
  }

  /** The number of occurrences of `c` in `s`. */
  function Count(s: string, c: char): nat
  {
    if s == [] then 0 else (if s[0] == c then 1 else 0) + Count(s[1..], c)
  }

  /** `sep.join(parts)`. */
  function Join(parts: seq<string>, sep: char): string
  {
    if |parts| == 0 then []
    else if |parts| == 1 then parts[0]
    else parts[0] + [sep] + Join(parts[1..], sep)
  }

  /** `s` with every `from` replaced by `to`, character by character. */
  function Substitute(s: string, from: char, to: char): (t: string)
    ensures |t| == |s|
    ensures forall i :: 0 <= i < |s| ==> t[i] == if s[i] == from then to else s[i]
  {
    if s == [] then []
    else [if s[0] == from then to else s[0]] + Substitute(s[1..], from, to)
  }

  /** Prefixing a character to the first piece prefixes it to the joined string. */
  lemma JoinPrepend(c: char, parts: seq<string>, sep: char)
    requires |parts| >= 1
    ensures Join([[c] + parts[0]] + parts[1..], sep) == [c] + Join(parts, sep)
  {
    var q := [[c] + parts[0]] + parts[1..];
    if |parts| > 1 {
      assert q[1..] == parts[1..];
    }
  }

  /** Splitting on `sep` and joining with `glue` substitutes `glue` for every `sep`. */
  lemma {:induction false} JoinSplit(s: string, sep: char, glue: char)
    ensures Join(Split(s, sep), glue) == Substitute(s, sep, glue)
    decreases |s|
  {
    if s != [] {
      JoinSplit(s[1..], sep, glue);
      var rest := Split(s[1..], sep);
      if s[0] == sep {
        assert ([[]] + rest)[1..] == rest;
      } else {
        JoinPrepend(s[0], rest, glue);
      }
    }
  }

  /** Joining the pieces with the separator they were split on gives `s` back. */
  lemma SplitJoinRoundTrip(s: string, sep: char)
    ensures Join(Split(s, sep), sep) == s
  {
    JoinSplit(s, sep, sep);
    assert Substitute(s, sep, sep) == s;
  }
}
