/** The JavaScript string operations the runner relies on, with their ECMAScript meaning,
    restricted to the one-character search strings and separators the runner uses. */
module JsString {

  /** `s.indexOf(c)`: the first position of `c` in `s`, or -1 when there is none. */
  function IndexOf(s: string, c: char): (r: int)
    ensures -1 <= r < |s|
    ensures r == -1 <==> c !in s
    ensures 0 <= r ==> s[r] == c && c !in s[..r]
  {
    IndexFrom(s, c, 0)
  }

  /** The first position of `c` at or after position `i` of `s`, or -1 when there is none. */
  function IndexFrom(s: string, c: char, i: nat): (r: int)
    requires i <= |s|
    ensures -1 <= r < |s|
    ensures r == -1 <==> c !in s[i..]
    ensures 0 <= r ==> i <= r && s[r] == c && c !in s[i..r]
    decreases |s| - i
  {
    if i == |s| then -1
    else if s[i] == c then i
    else
      assert s[i..] == [s[i]] + s[i + 1..];
      var r := IndexFrom(s, c, i + 1);
      assert 0 <= r ==> s[i..r] == [s[i]] + s[i + 1..r];
      r
  }

  /** `s.lastIndexOf(c)`: the last position of `c` in `s`, or -1 when there is none. */
  function LastIndexOf(s: string, c: char): (r: int)
    ensures -1 <= r < |s|
    ensures r == -1 <==> c !in s
    ensures 0 <= r ==> s[r] == c && c !in s[r + 1..]
  {
    LastIndexBelow(s, c, |s|)
  }

  /** The last position of `c` before position `n` of `s`, or -1 when there is none. */
  function LastIndexBelow(s: string, c: char, n: nat): (r: int)
    requires n <= |s|
    ensures -1 <= r < n
    ensures r == -1 <==> c !in s[..n]
    ensures 0 <= r ==> s[r] == c && c !in s[r + 1..n]
  {
    if n == 0 then -1
    else if s[n - 1] == c then n - 1
    else
      assert s[..n] == s[..n - 1] + [s[n - 1]];
      var r := LastIndexBelow(s, c, n - 1);
      assert 0 <= r ==> s[r + 1..n] == s[r + 1..n - 1] + [s[n - 1]];
      r
  }

  /** `s.endsWith(suffix)`. */
  predicate EndsWith(s: string, suffix: string)
  {
    |suffix| <= |s| && s[|s| - |suffix|..] == suffix
  }

  /** An index argument of `substring`, clamped to `[0, n]`. */
  function Clamp(i: int, n: nat): (r: nat)
    ensures r <= n
    ensures 0 <= i <= n ==> r == i
  {
    if i < 0 then 0 else if i > n then n else i
  }

  /** `s.substring(start, end)`: both arguments are clamped to `[0, |s|]` and,
      when the first exceeds the second, they are swapped. */
  function Substring(s: string, start: int, end: int): string
  {
    var a, b := Clamp(start, |s|), Clamp(end, |s|);
    if a <= b then s[a..b] else s[b..a]
  }

  /** `substring` with ordered in-range arguments is the slice between them. */
  lemma SubstringOrdered(s: string, a: int, b: int)
    requires 0 <= a <= b <= |s|
    ensures Substring(s, a, b) == s[a..b]
  {
  }

  /** `substring` with reversed in-range arguments is the slice between them, swapped. */
  lemma SubstringSwapped(s: string, a: int, b: int)
    requires 0 <= b <= a <= |s|
    ensures Substring(s, a, b) == s[b..a]
  {
  }

  /** The slice from position `i` to position `j`, both included, starts with `s[i]` and ends with `s[j]`. */
  lemma SliceEnds(s: string, i: nat, j: nat)
    requires i <= j < |s|
    ensures var t := s[i..j + 1]; |t| == j - i + 1 && t[0] == s[i] && t[|t| - 1] == s[j]
  {
  }

  /** `s.split(sep)` for a one-character separator: the maximal separator-free
      segments of `s`, in order; an empty `s` gives `[""]`. */
  function Split(s: string, sep: char): (parts: seq<string>)
    ensures |parts| >= 1
    decreases |s|
  {
    var i := IndexOf(s, sep);
    if i == -1 then [s] else [s[..i]] + Split(s[i + 1..], sep)
  }

  /** `parts.join(sep)` for a one-character separator. */
  function Join(parts: seq<string>, sep: char): string
  {
    if |parts| == 0 then ""
    else if |parts| == 1 then parts[0]
    else parts[0] + [sep] + Join(parts[1..], sep)
  }

  /** A string is what precedes position `i`, the character there, and what follows. */
  lemma Around(s: string, i: nat)
    requires i < |s|
    ensures s == s[..i] + [s[i]] + s[i + 1..]
  {
  }

  /** Joining a segment in front of at least one other puts a separator between them. */
  lemma JoinCons(head: string, tail: seq<string>, sep: char)
    requires |tail| >= 1
    ensures Join([head] + tail, sep) == head + [sep] + Join(tail, sep)
  {
    assert ([head] + tail)[1..] == tail;
  }

  /** Joining the segments of a split gives back the original string. */
  lemma {:induction false} JoinSplit(s: string, sep: char)
    ensures Join(Split(s, sep), sep) == s
    decreases |s|
  {
    var i := IndexOf(s, sep);
    if i != -1 {
      var rest := s[i + 1..];
      var tail := Split(rest, sep);
      assert Split(s, sep) == [s[..i]] + tail;
      JoinSplit(rest, sep);
      JoinCons(s[..i], tail, sep);
      Around(s, i);
    }
  }

  /** Splitting at the first separator: the first segment is what precedes it, and the other
      segments rejoin to everything after it. */
  lemma SplitAtFirst(s: string, sep: char)
    requires sep in s
    ensures var i := IndexOf(s, sep);
      Split(s, sep)[0] == s[..i] && Join(Split(s, sep)[1..], sep) == s[i + 1..]
  {
    var i := IndexOf(s, sep);
    var tail := Split(s[i + 1..], sep);
    assert Split(s, sep) == [s[..i]] + tail;
    assert Split(s, sep)[0] == s[..i] && Split(s, sep)[1..] == tail;
    assert Join(tail, sep) == s[i + 1..] by {
      JoinSplit(s[i + 1..], sep);
    }
  }

  /** The pieces of `x + [c] + y`, recovered by slicing. */
  lemma Cut(x: string, c: char, y: string)
    ensures var s := x + [c] + y;
      |s| == |x| + 1 + |y| && s[..|x|] == x && s[|x|] == c && s[|x| + 1..] == y
  {
  }

  /** The first occurrence of `c` in `x + [c] + y` is the one after `x`, when `x` has none. */
  lemma IndexOfCut(x: string, c: char, y: string)
    requires c !in x
    ensures IndexOf(x + [c] + y, c) == |x|
  {
    Cut(x, c, y);
  }

  /** The first occurrence of `c` in `x + y` is where `y` starts, when `x` has none and `y` starts with `c`. */
  lemma IndexOfAfterPrefix(x: string, y: string, c: char)
    requires c !in x
    requires |y| > 0 && y[0] == c
    ensures IndexOf(x + y, c) == |x|
  {
    assert x + y == x + [c] + y[1..];
    IndexOfCut(x, c, y[1..]);
  }

  /** The last occurrence of `c` in `x + y` is where `x` ends, when `y` has none and `x` ends with `c`. */
  lemma LastIndexOfBeforeSuffix(x: string, y: string, c: char)
    requires c !in y
    requires |x| > 0 && x[|x| - 1] == c
    ensures LastIndexOf(x + y, c) == |x| - 1
  {
    var x' := x[..|x| - 1];
    assert x + y == x' + [c] + y;
    Cut(x', c, y);
  }

  /** A common prefix cancels. */
  lemma PrefixCancel(p: string, x: string, y: string)
    requires p + x == p + y
    ensures x == y
  {
    assert x == (p + x)[|p|..];
    assert y == (p + y)[|p|..];
  }

  /** A common suffix cancels. */
  lemma SuffixCancel(x: string, y: string, q: string)
    requires x + q == y + q
    ensures x == y
  {
    assert x == (x + q)[..|x|];
    assert y == (y + q)[..|y|];
  }

  /** A string cut at the first occurrence of `c` is cut uniquely. */
  lemma CutAtFirstUnique(a1: string, b1: string, a2: string, b2: string, c: char)
    requires c !in a1 && c !in a2
    requires a1 + [c] + b1 == a2 + [c] + b2
    ensures a1 == a2 && b1 == b2
  {
    IndexOfCut(a1, c, b1);
    IndexOfCut(a2, c, b2);
    Cut(a1, c, b1);
    Cut(a2, c, b2);
  }

  /** Splitting a separator-free segment, a separator and a rest gives the segment, then the
      rest's segments. */
  lemma SplitCons(head: string, sep: char, rest: string)
    requires sep !in head
    ensures Split(head + [sep] + rest, sep) == [head] + Split(rest, sep)
  {
    IndexOfCut(head, sep, rest);
    Cut(head, sep, rest);
  }

  /** Splitting a join of separator-free segments gives back the segments. */
  lemma {:induction false} SplitJoin(parts: seq<string>, sep: char)
    requires |parts| >= 1
    requires forall i :: 0 <= i < |parts| ==> sep !in parts[i]
    ensures Split(Join(parts, sep), sep) == parts
    decreases |parts|
  {
    if |parts| == 1 {
      assert Join(parts, sep) == parts[0];
    } else {
      assert parts == [parts[0]] + parts[1..];
      JoinCons(parts[0], parts[1..], sep);
      SplitCons(parts[0], sep, Join(parts[1..], sep));
      SplitJoin(parts[1..], sep);
    }
  }
}
