/**
 * The two functions of Go's `strings` package that the router uses to turn a
 * request path into a search key: `strings.Split` and `strings.Join`, for a
 * single-character separator. Go strings are byte strings; the only separator
 * used is the ASCII '/', so working on characters changes nothing here.
 */
module Strings {

  /** Position of the first `c` in `s`, or `|s|` when `s` holds no `c`. */
  function FirstIndex(s: string, c: char): (i: nat)
    ensures i <= |s|
    ensures i < |s| <==> c in s
    ensures i < |s| ==> s[i] == c
    ensures forall j :: 0 <= j < i ==> s[j] != c
  {
    if |s| == 0 then 0
    else if s[0] == c then 0
    else 1 + FirstIndex(s[1..], c)
  }

  /** Number of occurrences of `c` in `s`. */
  function Count(s: string, c: char): nat
  {
    if |s| == 0 then 0
    else (if s[0] == c then 1 else 0) + Count(s[1..], c)
  }

  /**
   * `strings.Split(s, sep)`: the pieces of `s` between the occurrences of
   * `sep`. There is always one more piece than there are separators, so an
   * empty `s` gives `[""]` and a string without `sep` gives `[s]`; adjacent
   * separators and separators at either end give empty pieces.
   */
  function Split(s: string, sep: char): (parts: seq<string>)
    ensures |parts| == Count(s, sep) + 1
    ensures forall i :: 0 <= i < |parts| ==> sep !in parts[i]
  {
    if |s| == 0 then [""]
    else
      var rest := Split(s[1..], sep);
      if s[0] == sep then [""] + rest
      else [[s[0]] + rest[0]] + rest[1..]
  }

  /**
   * `strings.Join(parts, sep)`: the pieces written one after the other with
   * `sep` between neighbours; no pieces give the empty string.
   */
  function Join(parts: seq<string>, sep: char): (r: string)
    ensures |parts| > 0 ==> parts[0] <= r
    ensures |parts| > 1 ==> |parts[0]| < |r| && r[|parts[0]|] == sep
  {
    if |parts| == 0 then ""
    else if |parts| == 1 then parts[0]
    else parts[0] + [sep] + Join(parts[1..], sep)
  }

  /** Joining with the separator a string was split on gives the string back. */
  lemma {:induction false} JoinSplit(s: string, sep: char)
    ensures Join(Split(s, sep), sep) == s
  {
    if |s| > 0 {
      var rest := Split(s[1..], sep);
      JoinSplit(s[1..], sep);
      if s[0] != sep {
        var head := [s[0]] + rest[0];
        if |rest| > 1 {
          calc {
            Join(Split(s, sep), sep);
            head + [sep] + Join(rest[1..], sep);
            [s[0]] + (rest[0] + [sep] + Join(rest[1..], sep));
            [s[0]] + Join(rest, sep);
          }
        }
        assert s == [s[0]] + s[1..];
      } else {
        assert s == [sep] + s[1..];
      }
    }
  }

  /**
   * Splitting at the first separator: the first piece is everything before
   * it, and the remaining pieces are exactly the pieces of what follows it.
   */
  lemma {:induction false} SplitAtFirst(s: string, sep: char)
    ensures var i := FirstIndex(s, sep);
      if i < |s| then Split(s, sep) == [s[..i]] + Split(s[i + 1..], sep)
      else Split(s, sep) == [s]
  {
    if |s| > 0 && s[0] != sep {
      SplitAtFirst(s[1..], sep);
      var i := FirstIndex(s, sep);
      if i < |s| {
        assert s[1..][..i - 1] == s[1..i];
        assert s[1..][i - 1 + 1..] == s[i + 1..];
        assert [s[0]] + s[1..i] == s[..i];
      } else {
        assert [s[0]] + s[1..] == s;
      }
    }
  }

  /**
   * The other direction of the round trip: splitting a join of pieces that
   * hold no separator gives the pieces back (there is always at least one).
   */
  lemma {:induction false} SplitJoin(parts: seq<string>, sep: char)
    requires |parts| > 0
    requires forall i :: 0 <= i < |parts| ==> sep !in parts[i]
    ensures Split(Join(parts, sep), sep) == parts
    decreases |parts|
  {
    var p := parts[0];
    SplitAtFirst(p, sep);
    if |parts| > 1 {
      var rest := Join(parts[1..], sep);
      var s := p + [sep] + rest;
      SplitJoin(parts[1..], sep);
      SplitAtFirst(s, sep);
      assert FirstIndex(s, sep) == |p| by {
        assert forall j :: 0 <= j < |p| ==> s[j] == p[j];
        assert s[|p|] == sep;
      }
      assert s[..|p|] == p;
      assert s[|p| + 1..] == rest;
      assert parts == [p] + parts[1..];
    }
  }

  /** `Split` is injective: two strings with the same pieces are equal. */
  lemma SplitInjective(s: string, t: string, sep: char)
    requires Split(s, sep) == Split(t, sep)
    ensures s == t
  {
    JoinSplit(s, sep);
    JoinSplit(t, sep);
  }
}
