/**
  The operations on Python `str` values that the geocoding pipeline relies on:
  whitespace as `str.isspace()` and the `\s` class see it, `str.strip()`,
  `str.lower()`, the `in` operator on strings, `str.find()`, `str.split(sep)`
  and its inverse `sep.join(parts)`.
 */
module Text {
  import opened Wrappers

  /** `str.isspace()`, which is also what `\s` matches in a `str` pattern. */
  predicate IsSpace(c: char) {
    ('\t' <= c <= '\r') || ('\U{1C}' <= c <= ' ') || c == '\U{85}' || c == '\U{A0}' ||
    c == '\U{1680}' || ('\U{2000}' <= c <= '\U{200A}') || c == '\U{2028}' || c == '\U{2029}' ||
    c == '\U{202F}' || c == '\U{205F}' || c == '\U{3000}'
  }

  /** `\d`, restricted to ASCII digits. */
  predicate IsDigit(c: char) {
    '0' <= c <= '9'
  }

  /** `\w`, restricted to ASCII letters, digits and the underscore. */
  predicate IsWordChar(c: char) {
    ('a' <= c <= 'z') || ('A' <= c <= 'Z') || IsDigit(c) || c == '_'
  }

  /** `str.lower()` on one character, restricted to ASCII letters. */
  function LowerChar(c: char): char {
    if 'A' <= c <= 'Z' then (c as int + 32) as char else c
  }

  /** The code of `LowerChar(c)`, for comparing lowered characters by number. */
  function LowerCode(c: char): int {
    LowerChar(c) as int
  }

  function Lower(s: string): (r: string)
    ensures |r| == |s|
    ensures forall i :: 0 <= i < |s| ==> r[i] == LowerChar(s[i])
  {
    if s == [] then [] else [LowerChar(s[0])] + Lower(s[1..])
  }

  /** Drops the leading whitespace (`str.lstrip()`, and also what a greedy `\s*` consumes). */
  function TrimLeft(s: string): (r: string)
    ensures |r| <= |s| && r == s[|s| - |r|..]
    ensures forall i :: 0 <= i < |s| - |r| ==> IsSpace(s[i])
    ensures r == [] || !IsSpace(r[0])
  {
    if s != [] && IsSpace(s[0]) then TrimLeft(s[1..]) else s
  }

  /** Drops the trailing whitespace (`str.rstrip()`). */
  function TrimRight(s: string): (r: string)
    ensures |r| <= |s| && r == s[..|r|]
    ensures forall i :: |r| <= i < |s| ==> IsSpace(s[i])
    ensures r == [] || !IsSpace(r[|r| - 1])
  {
    if s != [] && IsSpace(s[|s| - 1]) then TrimRight(s[..|s| - 1]) else s
  }

  /** Where the result of `Strip(s)` starts inside `s`. */
  function StripStart(s: string): nat {
    |s| - |TrimLeft(s)|
  }

  /**
    `str.strip()`: the infix of `s` left once the whitespace at both ends is
    gone; everything outside it is whitespace and it neither starts nor ends
    with whitespace.
   */
  function Strip(s: string): (r: string)
    ensures StripStart(s) + |r| <= |s| && r == s[StripStart(s)..StripStart(s) + |r|]
    ensures forall i :: 0 <= i < |s| && !(StripStart(s) <= i < StripStart(s) + |r|) ==> IsSpace(s[i])
    ensures r == [] || (!IsSpace(r[0]) && !IsSpace(r[|r| - 1]))
  {
    TrimRight(TrimLeft(s))
  }

  /** A string is the concatenation of the three slices two cut points make. */
  lemma SliceThree(s: string, i: nat, j: nat)
    requires i <= j <= |s|
    ensures s == s[..i] + s[i..j] + s[j..]
  {
  }

  /** Every character of `Strip(s)` is a character of `s`. */
  lemma StripChars(s: string, c: char)
    ensures c in Strip(s) ==> c in s
  {
    if c in Strip(s) {
      var r := Strip(s);
      var st := StripStart(s);
      var i :| 0 <= i < |r| && r[i] == c;
      assert s[st + i] == c;
    }
  }

  /** `pat` occurs in `s` at index `i`. */
  predicate OccursAt(s: string, pat: string, i: int) {
    0 <= i && i + |pat| <= |s| && s[i..i + |pat|] == pat
  }

  lemma OccursAtSuffix(s: string, pat: string, k: nat, i: int)
    requires k <= |s| && 0 <= i
    ensures OccursAt(s[k..], pat, i) <==> OccursAt(s, pat, i + k)
  {
    if 0 <= i && i + |pat| <= |s| - k {
      assert s[k..][i..i + |pat|] == s[i + k..i + k + |pat|];
    }
  }

  lemma OccursAtOne(s: string, c: char, i: int)
    ensures OccursAt(s, [c], i) <==> 0 <= i < |s| && s[i] == c
  {
    if 0 <= i < |s| {
      assert s[i..i + 1] == [s[i]];
    }
  }

  /** An occurrence starts with the pattern's first character. */
  lemma OccursAtFirstChar(s: string, pat: string, j: int)
    requires pat != []
    ensures OccursAt(s, pat, j) ==> s[j] == pat[0]
  {
    if OccursAt(s, pat, j) {
      assert s[j..j + |pat|][0] == s[j];
    }
  }

  /** An occurrence inside the infix `s[a..b]` is an occurrence in `s`. */
  lemma OccursAtInfix(s: string, a: nat, b: nat, pat: string, i: int)
    requires a <= b <= |s| && OccursAt(s[a..b], pat, i)
    ensures OccursAt(s, pat, a + i)
  {
    var inner, outer := s[a..b][i..i + |pat|], s[a + i..a + i + |pat|];
    forall k | 0 <= k < |pat| ensures inner[k] == outer[k] {
      assert inner[k] == s[a + i + k];
    }
    assert inner == outer;
  }

  /** `s.find(pat)`: the first index where `pat` occurs, `None` standing for `-1`. */
  function Find(s: string, pat: string): (r: Option<nat>)
    ensures r.Some? ==> OccursAt(s, pat, r.value) && forall j :: 0 <= j < r.value ==> !OccursAt(s, pat, j)
    ensures r.None? ==> forall j :: !OccursAt(s, pat, j)
    decreases |s|
  {
    if |pat| <= |s| && s[..|pat|] == pat then Some(0)
    else if s == [] then None
    else
      var rest := Find(s[1..], pat);
      forall j | j >= 1 ensures OccursAt(s[1..], pat, j - 1) <==> OccursAt(s, pat, j) {
        OccursAtSuffix(s, pat, 1, j - 1);
      }
      match rest
      case None => None
      case Some(i) => Some(i + 1)
  }

  /** `pat in s`. */
  predicate Contains(s: string, pat: string) {
    Find(s, pat).Some?
  }

  /** `Contains` holds exactly when the pattern occurs somewhere. */
  lemma ContainsIff(s: string, pat: string)
    ensures Contains(s, pat) <==> exists i :: OccursAt(s, pat, i)
  {
    if Contains(s, pat) {
      assert OccursAt(s, pat, Find(s, pat).value);
    }
  }

  /** A one-character pattern is found exactly when the character is in the string. */
  lemma ContainsChar(s: string, c: char)
    ensures Contains(s, [c]) <==> c in s
  {
    if c in s {
      var i :| 0 <= i < |s| && s[i] == c;
      OccursAtOne(s, c, i);
    } else if Contains(s, [c]) {
      OccursAtOne(s, c, Find(s, [c]).value);
    }
  }

  /** A pattern can only be found in a string that holds every character of it. */
  lemma ContainsChars(s: string, pat: string, c: char)
    requires c in pat && Contains(s, pat)
    ensures c in s
  {
    var i := Find(s, pat).value;
    var k :| 0 <= k < |pat| && pat[k] == c;
    assert s[i..i + |pat|][k] == s[i + k];
  }

  /** The empty pattern is in every string, so `"" in part` is always true. */
  lemma ContainsEmpty(s: string)
    ensures Find(s, []) == Some(0)
  {
  }

  /** The first occurrence of a one-character pattern `[c]` is the first `c`. */
  lemma FindChar(a: string, c: char, b: string)
    requires c !in a
    ensures Find(a + [c] + b, [c]) == Some(|a|)
  {
    var s := a + [c] + b;
    OccursAtOne(s, c, |a|);
    var r := Find(s, [c]);
    if r.Some? && r.value < |a| {
      OccursAtOne(s, c, r.value);
    }
  }

  lemma FindCharAbsent(s: string, c: char)
    requires c !in s
    ensures Find(s, [c]) == None
  {
    var r := Find(s, [c]);
    if r.Some? {
      OccursAtOne(s, c, r.value);
    }
  }

  /**
    `s.split(sep)`: the pieces between the non-overlapping occurrences of
    `sep`, found left to right.
   */
  function Split(s: string, sep: string): (parts: seq<string>)
    requires sep != []
    ensures |parts| >= 1
    ensures forall k :: 0 <= k < |parts| - 1 ==> Find(parts[k] + sep, sep) == Some(|parts[k]|)
    decreases |s|
  {
    match Find(s, sep)
    case None => [s]
    case Some(i) =>
      FindBeforeFirst(s, sep, i);
      [s[..i]] + Split(s[i + |sep|..], sep)
  }

  /** The text before the first occurrence, followed by the separator, has its first occurrence at its end. */
  lemma FindBeforeFirst(s: string, sep: string, i: nat)
    requires Find(s, sep) == Some(i)
    ensures Find(s[..i] + sep, sep) == Some(i)
  {
    var t := s[..i] + sep;
    ThroughFirst(s, sep, i);
    forall j | 0 <= j < i ensures !OccursAt(t, sep, j) {
      AbsentInPrefix(s, sep, i + |sep|, j);
    }
    FindIs(t, sep, i);
  }

  /** A prefix long enough to hold position `j` and the pattern agrees with the whole string there. */
  lemma AbsentInPrefix(s: string, sep: string, n: nat, j: nat)
    requires j + |sep| <= n <= |s| && !OccursAt(s, sep, j)
    ensures !OccursAt(s[..n], sep, j)
  {
    assert s[..n][j..j + |sep|] == s[j..j + |sep|];
  }

  /** Cut right after an occurrence, a string is its text before the occurrence and the pattern. */
  lemma ThroughFirst(s: string, sep: string, i: nat)
    requires OccursAt(s, sep, i)
    ensures s[..i] + sep == s[..i + |sep|] && OccursAt(s[..i] + sep, sep, i)
  {
    var n := i + |sep|;
    assert s[..n] == s[..i] + s[i..n];
    assert s[..n][i..n] == sep;
  }

  /** An occurrence with none before it is the one `Find` returns. */
  lemma FindIs(s: string, pat: string, i: nat)
    requires OccursAt(s, pat, i) && forall j :: 0 <= j < i ==> !OccursAt(s, pat, j)
    ensures Find(s, pat) == Some(i)
  {
  }

  /** `sep.join(parts)`. */
  function Join(parts: seq<string>, sep: string): string
    requires |parts| >= 1
  {
    if |parts| == 1 then parts[0] else parts[0] + sep + Join(parts[1..], sep)
  }

  /** Splitting loses nothing: joining the pieces with the separator gives the string back. */
  lemma {:induction false} SplitJoin(s: string, sep: string)
    requires sep != []
    ensures Join(Split(s, sep), sep) == s
    decreases |s|
  {
    match Find(s, sep)
    case None =>
    case Some(i) =>
      var rest := s[i + |sep|..];
      var parts := Split(s, sep);
      assert parts == [s[..i]] + Split(rest, sep);
      SplitJoin(rest, sep);
      assert parts[1..] == Split(rest, sep);
      calc {
        Join(parts, sep);
        parts[0] + sep + Join(parts[1..], sep);
        s[..i] + sep + rest;
        { assert s[i..i + |sep|] == sep; }
        s;
      }
  }

  /** No piece of a split contains the separator. */
  lemma {:induction false} SplitPiecesFree(s: string, sep: string)
    requires sep != []
    ensures forall k :: 0 <= k < |Split(s, sep)| ==> !Contains(Split(s, sep)[k], sep)
    decreases |s|
  {
    match Find(s, sep)
    case None =>
      assert Split(s, sep) == [s];
    case Some(i) =>
      var rest := s[i + |sep|..];
      var parts := Split(s, sep);
      var tail := Split(rest, sep);
      assert parts == [s[..i]] + tail;
      SplitPiecesFree(rest, sep);
      BeforeFirstFree(s, sep, i);
      forall k | 0 <= k < |parts| ensures !Contains(parts[k], sep) {
        if k > 0 {
          assert parts[k] == tail[k - 1];
        }
      }
  }

  /** The text before the first occurrence holds no occurrence. */
  lemma BeforeFirstFree(s: string, sep: string, i: nat)
    requires sep != [] && Find(s, sep) == Some(i)
    ensures !Contains(s[..i], sep)
  {
    var head := s[..i];
    if Contains(head, sep) {
      var j := Find(head, sep).value;
      assert head[j..j + |sep|] == s[j..j + |sep|];
      assert OccursAt(s, sep, j);
    }
  }

  /** A leading piece free of the one-character separator is split off as the first piece. */
  lemma SplitCons(a: string, c: char, b: string)
    requires c !in a
    ensures Split(a + [c] + b, [c]) == [a] + Split(b, [c])
  {
    var s := a + [c] + b;
    FindChar(a, c, b);
    assert s[..|a|] == a;
    assert s[|a| + 1..] == b;
  }

  /** A string free of the one-character separator is one piece. */
  lemma SplitSingle(s: string, c: char)
    requires c !in s
    ensures Split(s, [c]) == [s]
  {
    FindCharAbsent(s, c);
  }

  /** `r` is `s` with some characters deleted: the characters of `r` appear in `s` in the same order. */
  predicate IsSubsequence(r: string, s: string)
    decreases |s|
  {
    if r == [] then true
    else if s == [] then false
    else (r[0] == s[0] && IsSubsequence(r[1..], s[1..])) || IsSubsequence(r, s[1..])
  }

  /** Deleting nothing is a deletion. */
  lemma {:induction false} SubsequenceRefl(s: string)
    ensures IsSubsequence(s, s)
    decreases |s|
  {
    if s != [] {
      SubsequenceRefl(s[1..]);
    }
  }

  /** What is kept from a suffix of `s` is kept from `s`. */
  lemma {:induction false} SubsequenceOfSuffix(r: string, s: string, k: nat)
    requires k <= |s| && IsSubsequence(r, s[k..])
    ensures IsSubsequence(r, s)
    decreases k
  {
    if k > 0 {
      assert s[1..][k - 1..] == s[k..];
      SubsequenceOfSuffix(r, s[1..], k - 1);
    }
  }

  /** Every character of a suffix of `s` is a character of `s`. */
  lemma SuffixChars(s: string, k: nat)
    requires k <= |s|
    ensures forall c :: c in s[k..] ==> c in s
  {
    assert s == s[..k] + s[k..];
  }

  /** A pattern found in `Strip(s)` is found in `s`. */
  lemma StripContains(s: string, pat: string)
    ensures Contains(Strip(s), pat) ==> Contains(s, pat)
  {
    if Contains(Strip(s), pat) {
      var r := Strip(s);
      var st := StripStart(s);
      var i := Find(r, pat).value;
      assert r == s[st..st + |r|] && OccursAt(r, pat, i);
      OccursAtInfix(s, st, st + |r|, pat, i);
      ContainsIff(s, pat);
    }
  }
}
