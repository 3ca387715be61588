/** The Python string operations the pipeline relies on: `strip`, `lower`,
    `replace`, `split`, `join`, `startswith`/`endswith` and substring search. */
module Text {
  import opened Wrappers
  import Seqs

  /** `c.isspace()` for Python 3 `str`: the code points `str.strip()` removes. */
  predicate IsSpace(c: char) {
    var n := c as int;
    || 9 <= n <= 13
    || 0x1C <= n <= 0x20
    || n == 0x85 || n == 0xA0 || n == 0x1680
    || 0x2000 <= n <= 0x200A
    || n == 0x2028 || n == 0x2029 || n == 0x202F || n == 0x205F || n == 0x3000
  }

  /** The length of the leading whitespace of `s`, what `s.lstrip()` removes. */
  function LeadingSpaces(s: string): (n: nat)
    ensures n <= |s|
    ensures forall k :: 0 <= k < n ==> IsSpace(s[k])
    ensures n == |s| || !IsSpace(s[n])
    decreases |s|
  {
    if |s| > 0 && IsSpace(s[0]) then
      var n := LeadingSpaces(s[1..]);
      assert forall k :: 1 <= k < n + 1 ==> s[k] == s[1..][k - 1];
      n + 1
    else 0
  }

  /** The length of the trailing whitespace of `s`, what `s.rstrip()` removes. */
  function TrailingSpaces(s: string): (n: nat)
    ensures n <= |s|
    ensures forall k :: |s| - n <= k < |s| ==> IsSpace(s[k])
    ensures n == |s| || !IsSpace(s[|s| - n - 1])
    decreases |s|
  {
    if |s| > 0 && IsSpace(s[|s| - 1]) then
      var n := TrailingSpaces(s[..|s| - 1]);
      assert forall k :: |s| - 1 - n <= k < |s| - 1 ==> s[k] == s[..|s| - 1][k];
      n + 1
    else 0
  }

  /** `s.strip()`: the slice of `s` between its leading and its trailing whitespace. */
  function Strip(s: string): (r: string)
    ensures LeadingSpaces(s) + |r| <= |s|
    ensures r == s[LeadingSpaces(s)..LeadingSpaces(s) + |r|]
    ensures forall k :: LeadingSpaces(s) + |r| <= k < |s| ==> IsSpace(s[k])
    ensures r == [] || (!IsSpace(r[0]) && !IsSpace(r[|r| - 1]))
  {
    var i := LeadingSpaces(s);
    var t := s[i..];
    var r := t[..|t| - TrailingSpaces(t)];
    assert forall k :: i + |r| <= k < |s| ==> s[k] == t[k - i];
    r
  }

  /** Stripping twice strips nothing more. */
  lemma StripIdempotent(s: string)
    ensures Strip(Strip(s)) == Strip(s)
  {
    var r := Strip(s);
    if |r| > 0 {
      assert LeadingSpaces(r) == 0;
      assert TrailingSpaces(r[0..]) == 0;
    }
  }

  /** `s.lower()` for ASCII letters; other characters are unchanged. */
  function Lower(s: string): (r: string)
    ensures |r| == |s|
    ensures forall k :: 0 <= k < |s| ==> r[k] == LowerChar(s[k])
  {
    if |s| == 0 then [] else [LowerChar(s[0])] + Lower(s[1..])
  }

  function LowerChar(c: char): char {
    if 'A' <= c <= 'Z' then (c as int + 32) as char else c
  }

  predicate StartsWith(s: string, prefix: string) {
    |prefix| <= |s| && s[..|prefix|] == prefix
  }

  predicate EndsWith(s: string, suffix: string) {
    |suffix| <= |s| && s[|s| - |suffix|..] == suffix
  }

  /** `q` occurs in `s` starting at position `i`. */
  predicate OccursAt(s: string, q: string, i: nat) {
    i + |q| <= |s| && s[i..i + |q|] == q
  }

  /** Python's `q in s` for strings. */
  ghost predicate Contains(s: string, q: string) {
    exists i: nat :: OccursAt(s, q, i)
  }

  /** `s.replace(p, r)`: every non-overlapping occurrence of `p`, scanning left to right,
      is replaced by `r`. The pipeline never replaces the empty string. */
  function Replace(s: string, p: string, r: string): string
    requires |p| > 0
    decreases |s|
  {
    if |s| < |p| then s
    else if s[..|p|] == p then r + Replace(s[|p|..], p, r)
    else [s[0]] + Replace(s[1..], p, r)
  }

  /** Replacing a pattern that occurs nowhere leaves the string unchanged. */
  lemma {:induction false} ReplaceAbsent(s: string, p: string, r: string)
    requires |p| > 0
    requires forall i: nat :: !OccursAt(s, p, i)
    ensures Replace(s, p, r) == s
    decreases |s|
  {
    if |s| >= |p| {
      assert !OccursAt(s, p, 0);
      forall i: nat ensures !OccursAt(s[1..], p, i) {
        assert !OccursAt(s, p, i + 1);
      }
      ReplaceAbsent(s[1..], p, r);
    }
  }

  /** The test "is not `c`", as a first-class function for filters. */
  function IsNot(c: char): char -> bool {
    (x: char) => x != c
  }

  /** The test "is none of `cs`", as a first-class function for filters. */
  function IsNoneOf(cs: seq<char>): char -> bool {
    (x: char) => x !in cs
  }

  /** Replacing one character by the empty string deletes exactly that character. */
  lemma {:induction false} ReplaceCharByEmpty(s: string, c: char)
    ensures Replace(s, [c], "") == Seqs.Filter(s, IsNot(c))
  {
    if |s| > 0 {
      ReplaceCharByEmpty(s[1..], c);
      assert s[..1] == [s[0]];
    }
  }

  /** Replacing one character by another is a character-wise substitution. */
  lemma {:induction false} ReplaceCharByChar(s: string, c: char, d: char)
    ensures |Replace(s, [c], [d])| == |s|
    ensures forall k :: 0 <= k < |s| ==> Replace(s, [c], [d])[k] == (if s[k] == c then d else s[k])
  {
    if |s| > 0 {
      ReplaceCharByChar(s[1..], c, d);
      assert s[..1] == [s[0]];
    }
  }

  /** `s.split(c)` for a one-character separator: the pieces between separators,
      empty pieces included. */
  function Split(s: string, c: char): (parts: seq<string>)
    ensures |parts| > 0
    ensures forall k :: 0 <= k < |parts| ==> c !in parts[k]
    decreases |s|
  {
    match Seqs.IndexOf(s, c)
    case None => [s]
    case Some(i) => [s[..i]] + Split(s[i + 1..], c)
  }

  /** `c.join(parts)`. */
  function Join(parts: seq<string>, c: char): string {
    if |parts| == 0 then ""
    else if |parts| == 1 then parts[0]
    else parts[0] + [c] + Join(parts[1..], c)
  }

  /** Joining one more piece appends the separator and the piece. */
  lemma {:induction false} JoinSnoc(parts: seq<string>, last: string, c: char)
    ensures Join(parts + [last], c) == if |parts| == 0 then last else Join(parts, c) + [c] + last
  {
    if |parts| > 1 {
      assert (parts + [last])[1..] == parts[1..] + [last];
      JoinSnoc(parts[1..], last, c);
    }
  }

  /** Joining the pieces of a split gives back the original string. */
  lemma {:induction false} JoinSplit(s: string, c: char)
    ensures Join(Split(s, c), c) == s
    decreases |s|
  {
    match Seqs.IndexOf(s, c)
    case None =>
    case Some(i) =>
      JoinSplit(s[i + 1..], c);
      assert s == s[..i] + [c] + s[i + 1..];
  }

  /** Splitting a join of separator-free pieces gives back the pieces. */
  lemma {:induction false} SplitJoin(parts: seq<string>, c: char)
    requires |parts| > 0
    requires forall k :: 0 <= k < |parts| ==> c !in parts[k]
    ensures Split(Join(parts, c), c) == parts
  {
    if |parts| > 1 {
      var s := Join(parts, c);
      SplitJoin(parts[1..], c);
      assert s == parts[0] + [c] + Join(parts[1..], c);
      assert s[..|parts[0]|] == parts[0];
      assert s[|parts[0]|] == c;
      assert c in s;
      assert Seqs.IndexOf(s, c) == Some(|parts[0]|);
      assert s[|parts[0]| + 1..] == Join(parts[1..], c);
    }
  }

  /** When `p` occurs at none of the first `k` positions, `replace` copies those `k`
      characters unchanged. */
  lemma {:induction false} ReplaceUnmatchedPrefix(s: string, p: string, r: string, k: nat)
    requires |p| > 0 && k <= |s|
    requires forall j: nat :: j < k ==> !OccursAt(s, p, j)
    ensures Replace(s, p, r) == s[..k] + Replace(s[k..], p, r)
    decreases k
  {
    if k > 0 {
      if |s| < |p| {
        assert s[k..] == s[k..];
      } else {
        assert !OccursAt(s, p, 0);
        forall j: nat | j < k - 1 ensures !OccursAt(s[1..], p, j) {
          OccursShift(s, p, j);
        }
        ReplaceUnmatchedPrefix(s[1..], p, r, k - 1);
        assert s[1..][k - 1..] == s[k..];
        assert s[..k] == [s[0]] + s[1..][..k - 1];
      }
    }
  }

  /** No occurrence of `p` in `s` overlaps the window of `q` at `i`. */
  ghost predicate NotOverlapped(s: string, p: string, q: string, i: nat) {
    forall j: nat :: OccursAt(s, p, j) ==> j + |p| <= i || i + |q| <= j
  }

  /** Dropping a prefix before the window shifts the occurrence and keeps it unoverlapped. */
  lemma DropBefore(s: string, p: string, q: string, i: nat, d: nat)
    requires d <= i && OccursAt(s, q, i) && NotOverlapped(s, p, q, i)
    ensures OccursAt(s[d..], q, i - d) && NotOverlapped(s[d..], p, q, i - d)
  {
    var t := s[d..];
    assert t[i - d..i - d + |q|] == s[i..i + |q|];
    forall j: nat | OccursAt(t, p, j) ensures j + |p| <= i - d || i - d + |q| <= j {
      assert s[j + d..j + d + |p|] == t[j..j + |p|];
      assert OccursAt(s, p, j + d);
    }
  }

  /** An occurrence in `t` is an occurrence in `a + t`, shifted by `|a|`. */
  lemma OccursAfter(a: string, t: string, q: string, m: nat)
    requires OccursAt(t, q, m)
    ensures OccursAt(a + t, q, |a| + m)
  {
    assert (a + t)[|a| + m..|a| + m + |q|] == t[m..m + |q|];
  }

  /** An occurrence of `q` that no occurrence of `p` overlaps survives `replace(p, r)`. */
  lemma {:induction false} ReplaceKeepsOccurrence(s: string, p: string, r: string, q: string, i: nat)
    requires |p| > 0
    requires OccursAt(s, q, i)
    requires NotOverlapped(s, p, q, i)
    ensures Contains(Replace(s, p, r), q)
    decreases |s|
  {
    var res := Replace(s, p, r);
    if |q| == 0 {
      assert OccursAt(res, q, 0);
    } else if |s| < |p| {
      assert OccursAt(res, q, i);
    } else if s[..|p|] == p {
      assert OccursAt(s, p, 0);
      DropBefore(s, p, q, i, |p|);
      ReplaceKeepsOccurrence(s[|p|..], p, r, q, i - |p|);
      var m: nat :| OccursAt(Replace(s[|p|..], p, r), q, m);
      OccursAfter(r, Replace(s[|p|..], p, r), q, m);
    } else if i == 0 {
      ReplaceUnmatchedPrefix(s, p, r, |q|);
      assert res[..|q|] == s[..|q|];
      assert OccursAt(res, q, 0);
    } else {
      DropBefore(s, p, q, i, 1);
      ReplaceKeepsOccurrence(s[1..], p, r, q, i - 1);
      var m: nat :| OccursAt(Replace(s[1..], p, r), q, m);
      OccursAfter([s[0]], Replace(s[1..], p, r), q, m);
    }
  }

  /** An occurrence of `q` survives a filter that keeps every character of `q`. */
  lemma FilterKeepsOccurrence(s: string, f: char -> bool, q: string, i: nat)
    requires OccursAt(s, q, i)
    requires forall k :: 0 <= k < |q| ==> f(q[k])
    ensures Contains(Seqs.Filter(s, f), q)
  {
    var pre, rest := s[..i], s[i + |q|..];
    assert s == pre + (q + rest);
    Seqs.FilterConcat(pre, q + rest, f);
    Seqs.FilterConcat(q, rest, f);
    Seqs.FilterKeepsAll(q, f);
    OccursBetween(Seqs.Filter(pre, f), q, Seqs.Filter(rest, f));
  }

  lemma OccursBetween(a: string, q: string, b: string)
    ensures OccursAt(a + (q + b), q, |a|)
  {
    assert (a + (q + b))[|a|..|a| + |q|] == q;
  }

  /** `q in s` as a scan from the left, usable outside ghost code. */
  predicate HasInfix(s: string, q: string)
    decreases |s|
  {
    StartsWith(s, q) || (|s| > 0 && HasInfix(s[1..], q))
  }

  /** Dropping the first character shifts every occurrence one place to the left. */
  lemma OccursShift(s: string, q: string, i: nat)
    requires |s| > 0
    ensures OccursAt(s[1..], q, i) <==> OccursAt(s, q, i + 1)
  {
    if i + |q| <= |s| - 1 {
      assert s[1..][i..i + |q|] == s[i + 1..i + 1 + |q|];
    }
  }

  /** The scan agrees with the positional definition of `q in s`. */
  lemma {:induction false} HasInfixIsContains(s: string, q: string)
    ensures HasInfix(s, q) <==> Contains(s, q)
    decreases |s|
  {
    if StartsWith(s, q) {
      assert OccursAt(s, q, 0);
    } else if |s| > 0 {
      HasInfixIsContains(s[1..], q);
      if Contains(s[1..], q) {
        var i: nat :| OccursAt(s[1..], q, i);
        OccursShift(s, q, i);
      }
      if Contains(s, q) {
        var i: nat :| OccursAt(s, q, i);
        assert i != 0;
        OccursShift(s, q, i - 1);
      }
    } else {
      assert forall i: nat :: !OccursAt(s, q, i);
    }
  }
}
