/**
 * The Python `str` operations the assistant's core relies on, as functions
 * on `string`: `lower()`, the substring test `pat in s`, `replace(pat, "")`,
 * `strip()`, `sep.join(parts)` and `split(sep)`.
 */
module Text {

  predicate IsUpper(c: char)
  {
    'A' <= c <= 'Z'
  }

  /** `c.lower()`; only the ASCII letters are folded. */
  function LowerChar(c: char): char
  {
    if IsUpper(c) then (c as int - 'A' as int + 'a' as int) as char else c
  }

  /** `s.lower()`: the same string with every ASCII capital folded. */
  function Lower(s: string): (r: string)
    ensures |r| == |s|
    ensures forall i :: 0 <= i < |s| ==> r[i] == LowerChar(s[i])
    ensures forall i :: 0 <= i < |r| ==> !IsUpper(r[i])
  {
    seq(|s|, i requires 0 <= i < |s| => LowerChar(s[i]))
  }

  /** A string without ASCII capitals is its own lower-case form. */
  lemma LowerOfLower(s: string)
    requires forall i :: 0 <= i < |s| ==> !IsUpper(s[i])
    ensures Lower(s) == s
  {
  }

  // ---------------------------------------------------------------------------
  // Substring test

  /** `pat` occurs in `s` at index `i`. */
  ghost predicate OccursAt(s: string, pat: string, i: int)
  {
    0 <= i && i + |pat| <= |s| && s[i..i + |pat|] == pat
  }

  lemma OccursShift(s: string, pat: string, i: int)
    requires |s| > 0 && 0 <= i
    ensures OccursAt(s[1..], pat, i) <==> OccursAt(s, pat, i + 1)
  {
    if 0 <= i && i + |pat| <= |s| - 1 {
      assert s[1..][i..i + |pat|] == s[i + 1..i + 1 + |pat|];
    }
  }

  /** When `pat` is not a prefix of `s`, it occurs in `s` iff it occurs in `s[1..]`. */
  lemma OccursPastHead(s: string, pat: string)
    requires |pat| <= |s| && s[..|pat|] != pat
    ensures (exists i :: OccursAt(s, pat, i)) <==> (exists i :: OccursAt(s[1..], pat, i))
  {
    if exists i :: OccursAt(s, pat, i) {
      var i :| OccursAt(s, pat, i);
      assert i != 0;
      OccursShift(s, pat, i - 1);
    }
    if exists i :: OccursAt(s[1..], pat, i) {
      var i :| OccursAt(s[1..], pat, i);
      OccursShift(s, pat, i);
      assert OccursAt(s, pat, i + 1);
    }
  }

  /** Python's `pat in s`: true exactly when `pat` occurs somewhere in `s`. */
  function Contains(s: string, pat: string): (r: bool)
    ensures r <==> exists i :: OccursAt(s, pat, i)
    decreases |s|
  {
    if |s| < |pat| then
      false
    else if s[..|pat|] == pat then
      assert OccursAt(s, pat, 0);
      true
    else
      OccursPastHead(s, pat);
      Contains(s[1..], pat)
  }

  // ---------------------------------------------------------------------------
  // Deleting a substring

  /**
   * `s.replace(pat, "")`: scanning left to right, every non-overlapping
   * occurrence of `pat` is deleted. The result is never longer, uses only
   * characters of `s`, and is `s` itself when `pat` does not occur.
   */
  function RemoveAll(s: string, pat: string): (r: string)
    requires pat != ""
    ensures |r| <= |s|
    decreases |s|
  {
    if |s| < |pat| then
      s
    else if s[..|pat|] == pat then
      RemoveAll(s[|pat|..], pat)
    else
      [s[0]] + RemoveAll(s[1..], pat)
  }

  /** Deletion uses only characters of `s`. */
  lemma {:induction false} RemoveAllKeepsCharacters(s: string, pat: string)
    requires pat != ""
    ensures multiset(RemoveAll(s, pat)) <= multiset(s)
    decreases |s|
  {
    if |s| >= |pat| {
      if s[..|pat|] == pat {
        RemoveAllKeepsCharacters(s[|pat|..], pat);
        assert s == s[..|pat|] + s[|pat|..];
      } else {
        RemoveAllKeepsCharacters(s[1..], pat);
        assert s == [s[0]] + s[1..];
      }
    }
  }

  /** Deletion leaves a string without `pat` as it is. */
  lemma {:induction false} RemoveAllWithoutPattern(s: string, pat: string)
    requires pat != "" && !Contains(s, pat)
    ensures RemoveAll(s, pat) == s
    decreases |s|
  {
    if |s| >= |pat| {
      assert s[..|pat|] != pat;
      OccursPastHead(s, pat);
      RemoveAllWithoutPattern(s[1..], pat);
      assert s == [s[0]] + s[1..];
    }
  }

  /**
   * Deletion scans left to right: when the first occurrence of `pat` in
   * `a + pat + b` is the one right after `a`, the result is `a` followed by
   * the deletion applied to `b`.
   */
  lemma RemoveAllFirstOccurrence(a: string, pat: string, b: string)
    requires pat != ""
    requires forall i :: 0 <= i < |a| ==> !OccursAt(a + pat + b, pat, i)
    ensures RemoveAll(a + pat + b, pat) == a + RemoveAll(b, pat)
  {
    var s := a + pat + b;
    assert s[|a|..|a| + |pat|] == pat;
    RemoveAllUpTo(s, pat, |a|);
    assert s[..|a|] == a && s[|a| + |pat|..] == b;
  }

  /** The same law for the first occurrence at index `n` of a single string. */
  lemma {:induction false} RemoveAllUpTo(s: string, pat: string, n: nat)
    requires pat != "" && OccursAt(s, pat, n)
    requires forall i :: 0 <= i < n ==> !OccursAt(s, pat, i)
    ensures RemoveAll(s, pat) == s[..n] + RemoveAll(s[n + |pat|..], pat)
    decreases n
  {
    if n == 0 {
      RemoveAllAtMatch(s, pat);
    } else {
      FirstOccurrenceInTail(s, pat, n);
      RemoveAllUpTo(s[1..], pat, n - 1);
      RemoveAllPrepend(s, pat, n);
    }
  }

  /** Past a head that starts no occurrence, the first occurrence is one place earlier in the tail. */
  lemma FirstOccurrenceInTail(s: string, pat: string, n: nat)
    requires 0 < n && OccursAt(s, pat, n)
    requires forall i :: 0 <= i < n ==> !OccursAt(s, pat, i)
    ensures n + |pat| <= |s| && s[..|pat|] != pat
    ensures OccursAt(s[1..], pat, n - 1)
    ensures forall i :: 0 <= i < n - 1 ==> !OccursAt(s[1..], pat, i)
  {
    assert !OccursAt(s, pat, 0);
    assert s[0..0 + |pat|] == s[..|pat|];
    OccursShift(s, pat, n - 1);
    forall i | 0 <= i < n - 1 ensures !OccursAt(s[1..], pat, i) {
      OccursShift(s, pat, i);
    }
  }

  /** One step of `RemoveAllUpTo`: a head that does not start an occurrence is kept. */
  lemma RemoveAllPrepend(s: string, pat: string, n: nat)
    requires pat != "" && 0 < n && n + |pat| <= |s| && s[..|pat|] != pat
    requires RemoveAll(s[1..], pat) == s[1..][..n - 1] + RemoveAll(s[1..][n - 1 + |pat|..], pat)
    ensures RemoveAll(s, pat) == s[..n] + RemoveAll(s[n + |pat|..], pat)
  {
    var whole, tail := RemoveAll(s, pat), RemoveAll(s[1..], pat);
    var removed := RemoveAll(s[n + |pat|..], pat);
    assert whole == [s[0]] + tail by {
      RemoveAllPastHead(s, pat);
    }
    assert tail == s[1..][..n - 1] + removed by {
      assert s[1..][n - 1 + |pat|..] == s[n + |pat|..];
    }
    HeadSlice(s, n);
    Regroup(whole, tail, s[0], s[1..][..n - 1], removed);
  }

  lemma HeadSlice(s: string, n: nat)
    requires 0 < n <= |s|
    ensures [s[0]] + s[1..][..n - 1] == s[..n]
  {
  }

  lemma Regroup(whole: string, tail: string, c: char, front: string, rest: string)
    requires whole == [c] + tail && tail == front + rest
    ensures whole == ([c] + front) + rest
  {
  }

  lemma RemoveAllAtMatch(s: string, pat: string)
    requires pat != "" && OccursAt(s, pat, 0)
    ensures RemoveAll(s, pat) == s[..0] + RemoveAll(s[0 + |pat|..], pat)
  {
    assert s[0..0 + |pat|] == s[..|pat|];
    assert s[..0] + RemoveAll(s[|pat|..], pat) == RemoveAll(s[|pat|..], pat);
  }

  lemma RemoveAllPastHead(s: string, pat: string)
    requires pat != "" && |pat| <= |s| && s[..|pat|] != pat
    ensures RemoveAll(s, pat) == [s[0]] + RemoveAll(s[1..], pat)
  {
  }

  // ---------------------------------------------------------------------------
  // Whitespace stripping

  /** The characters `str.isspace()` accepts, which `str.strip()` removes. */
  predicate IsSpace(c: char)
  {
    var n := c as int;
    (0x09 <= n <= 0x0D) || (0x1C <= n <= 0x20) || n == 0x85 || n == 0xA0 || n == 0x1680
    || (0x2000 <= n <= 0x200A) || n == 0x2028 || n == 0x2029 || n == 0x202F || n == 0x205F
    || n == 0x3000
  }

  ghost predicate AllSpace(s: string)
  {
    forall i {:trigger IsSpace(s[i])} :: 0 <= i < |s| ==> IsSpace(s[i])
  }

  /** Neither the first nor the last character of `s` is whitespace. */
  predicate Trimmed(s: string)
  {
    s == [] || (!IsSpace(s[0]) && !IsSpace(s[|s| - 1]))
  }

  /** `r` is `s` with the whitespace-only prefix `s[..i]` and a whitespace-only suffix cut off. */
  ghost predicate StrippedAt(s: string, r: string, i: int)
  {
    0 <= i && i + |r| <= |s| && s[i..i + |r|] == r && AllSpace(s[..i]) && AllSpace(s[i + |r|..])
  }

  /** `s.lstrip()` */
  function StripStart(s: string): (r: string)
    ensures |r| <= |s| && r == s[|s| - |r|..]
    ensures AllSpace(s[..|s| - |r|])
    ensures r == [] || !IsSpace(r[0])
    decreases |s|
  {
    if s != [] && IsSpace(s[0]) then
      var r := StripStart(s[1..]);
      assert s[..|s| - |r|] == [s[0]] + s[1..][..|s| - 1 - |r|];
      r
    else
      s
  }

  /** `s.rstrip()` */
  function StripEnd(s: string): (r: string)
    ensures |r| <= |s| && r == s[..|r|]
    ensures AllSpace(s[|r|..])
    ensures r == [] || !IsSpace(r[|r| - 1])
    decreases |s|
  {
    if s != [] && IsSpace(s[|s| - 1]) then
      var r := StripEnd(s[..|s| - 1]);
      assert s[|r|..] == s[..|s| - 1][|r|..] + [s[|s| - 1]];
      r
    else
      s
  }

  /** `s.strip()`: the middle of `s` between a whitespace prefix and a whitespace suffix, trimmed at both ends. */
  function Strip(s: string): (r: string)
    ensures Trimmed(r)
    ensures StrippedAt(s, r, |s| - |StripStart(s)|)
  {
    var left := StripStart(s);
    var r := StripEnd(left);
    StrippedInTwoSteps(s, left, r);
    r
  }

  /** Cutting whitespace off the front and then off the back strips both ends. */
  lemma StrippedInTwoSteps(s: string, left: string, r: string)
    requires |left| <= |s| && left == s[|s| - |left|..] && AllSpace(s[..|s| - |left|])
    requires |r| <= |left| && r == left[..|r|] && AllSpace(left[|r|..])
    requires left == [] || !IsSpace(left[0])
    requires r == [] || !IsSpace(r[|r| - 1])
    ensures StrippedAt(s, r, |s| - |left|)
    ensures Trimmed(r)
  {
    if r != [] {
      assert r[0] == left[0];
    }
    var i := |s| - |left|;
    assert s[i..i + |r|] == r;
    assert s[i + |r|..] == left[|r|..];
  }

  /** `s.strip()` is empty exactly when `s` consists of whitespace only. */
  lemma StripEmpty(s: string)
    ensures Strip(s) == [] <==> AllSpace(s)
  {
    var left := StripStart(s);
    if StripEnd(left) == [] {
      assert left[0..] == left;
      assert left == [];
      forall k | 0 <= k < |s| ensures IsSpace(s[k]) {
        assert s[k] == s[..|s|][k];
      }
    }
  }

  /** `lstrip` removes exactly a whitespace prefix in front of a string that does not start with whitespace. */
  lemma {:induction false} StripStartAfterSpaces(w: string, c: string)
    requires AllSpace(w) && (c == [] || !IsSpace(c[0]))
    ensures StripStart(w + c) == c
  {
    if w == [] {
      assert w + c == c;
    } else {
      assert IsSpace(w[0]);
      assert (w + c)[1..] == w[1..] + c;
      StripStartAfterSpaces(w[1..], c);
    }
  }

  /** Stripping a whitespace prefix off an already trimmed string gives that string. */
  lemma StripAfterSpaces(w: string, c: string)
    requires AllSpace(w) && Trimmed(c)
    ensures Strip(w + c) == c
  {
    StripStartAfterSpaces(w, c);
  }

  // ---------------------------------------------------------------------------
  // Joining and splitting lines

  /** `sep.join(parts)` for a one-character separator. */
  function Join(parts: seq<string>, sep: char): string
  {
    if |parts| == 0 then ""
    else if |parts| == 1 then parts[0]
    else parts[0] + [sep] + Join(parts[1..], sep)
  }

  /** `s.split(sep)` for a one-character separator; never empty (`"".split(sep) == [""]`). */
  function Split(s: string, sep: char): (r: seq<string>)
    ensures |r| >= 1
    decreases |s|
  {
    if s == [] then [""]
    else
      var rest := Split(s[1..], sep);
      if s[0] == sep then [""] + rest
      else [[s[0]] + rest[0]] + rest[1..]
  }

  lemma {:induction false} SplitWithoutSeparator(a: string, sep: char)
    requires sep !in a
    ensures Split(a, sep) == [a]
  {
    if a != [] {
      SplitWithoutSeparator(a[1..], sep);
      assert [a[0]] + a[1..] == a;
    }
  }

  lemma {:induction false} SplitAtFirstSeparator(a: string, sep: char, t: string)
    requires sep !in a
    ensures Split(a + [sep] + t, sep) == [a] + Split(t, sep)
  {
    if a == [] {
      assert (a + [sep] + t)[1..] == t;
    } else {
      assert (a + [sep] + t)[1..] == a[1..] + [sep] + t;
      SplitAtFirstSeparator(a[1..], sep, t);
      assert [a[0]] + a[1..] == a;
    }
  }

  /** Splitting a join gives back the parts, provided none contains the separator. */
  lemma {:induction false} SplitJoin(parts: seq<string>, sep: char)
    requires |parts| >= 1
    requires forall k :: 0 <= k < |parts| ==> sep !in parts[k]
    ensures Split(Join(parts, sep), sep) == parts
  {
    if |parts| == 1 {
      SplitWithoutSeparator(parts[0], sep);
    } else {
      SplitJoin(parts[1..], sep);
      SplitAtFirstSeparator(parts[0], sep, Join(parts[1..], sep));
      assert [parts[0]] + parts[1..] == parts;
    }
  }
}
