/**
 * trim from src/misc.c: strips the maximal leading and trailing runs of isspace
 * characters from a NUL-terminated buffer, in place.
 */
module Misc {
  import opened CStrings

  /** Every character of s is whitespace. */
  predicate AllSpace(s: string) {
    forall i :: 0 <= i < |s| ==> IsSpace(s[i])
  }

  /** The length of the maximal leading whitespace run of s. */
  function Leading(s: string): (n: nat)
    ensures n <= |s| && forall j :: 0 <= j < n ==> IsSpace(s[j])
    ensures n < |s| ==> !IsSpace(s[n])
  {
    if s != [] && IsSpace(s[0]) then
      var k := Leading(s[1..]);
      assert s[1..][..k] == s[1..k + 1];
      1 + k
    else 0
  }

  /** The length of the maximal trailing whitespace run of s. */
  function Trailing(s: string): (n: nat)
    ensures n <= |s| && forall j :: |s| - n <= j < |s| ==> IsSpace(s[j])
    ensures n < |s| ==> !IsSpace(s[|s| - n - 1])
  {
    if s != [] && IsSpace(s[|s| - 1]) then
      var k := Trailing(s[..|s| - 1]);
      assert s[..|s| - 1][|s| - 1 - k..] + [s[|s| - 1]] == s[|s| - k - 1..];
      1 + k
    else 0
  }

  /** What trim leaves of s: the text between its leading and trailing whitespace runs. */
  function Trim(s: string): (r: string)
    ensures |r| <= |s|
  {
    if Leading(s) == |s| then [] else s[Leading(s)..|s| - Trailing(s)]
  }

  /** The text has no whitespace at either end. */
  predicate NoOuterSpace(m: string) {
    m == [] || (!IsSpace(m[0]) && !IsSpace(m[|m| - 1]))
  }

  /** trim's result has no leading and no trailing whitespace. */
  lemma TrimNoOuterSpace(s: string)
    ensures NoOuterSpace(Trim(s))
  {
  }

  /** trim introduces no character: one absent from the input is absent from the result. */
  lemma TrimKeepsOut(s: string, c: char)
    requires c !in s
    ensures c !in Trim(s)
  {
    TrimSplits(s);
  }

  /** The input is a whitespace run, then the trimmed text, then a whitespace run. */
  lemma TrimSplits(s: string)
    ensures Leading(s) + |Trim(s)| <= |s|
    ensures s == s[..Leading(s)] + Trim(s) + s[Leading(s) + |Trim(s)|..]
    ensures AllSpace(s[..Leading(s)]) && AllSpace(s[Leading(s) + |Trim(s)|..])
  {
    if Leading(s) == |s| {
      BlankSplits(s);
    } else {
      MiddleSplits(s);
    }
  }

  lemma BlankSplits(s: string)
    requires Leading(s) == |s|
    ensures Trim(s) == [] && AllSpace(s)
  {
    SpaceRun(s, 0, |s|);
    assert s[0..|s|] == s;
  }

  lemma MiddleSplits(s: string)
    requires Leading(s) < |s|
    ensures Leading(s) + |Trim(s)| == |s| - Trailing(s)
    ensures Trim(s) == s[Leading(s)..|s| - Trailing(s)]
    ensures AllSpace(s[..Leading(s)]) && AllSpace(s[|s| - Trailing(s)..])
    ensures s == s[..Leading(s)] + Trim(s) + s[|s| - Trailing(s)..]
  {
    var l := Leading(s);
    var e := |s| - Trailing(s);
    OuterRunsDisjoint(s);
    SpaceRun(s, 0, l);
    SpaceRun(s, e, |s|);
    Rejoin(s, l, e);
  }

  /** A run of whitespace positions is an all-whitespace slice. */
  lemma SpaceRun(s: string, a: nat, b: nat)
    requires a <= b <= |s| && forall j :: a <= j < b ==> IsSpace(s[j])
    ensures AllSpace(s[a..b])
  {
  }

  lemma Rejoin(s: string, l: nat, e: nat)
    requires l <= e <= |s|
    ensures s == s[..l] + s[l..e] + s[e..]
  {
  }

  /** Leading is the only n whose prefix is all whitespace and is followed by a non-space. */
  lemma LeadingIs(s: string, n: nat)
    requires n <= |s| && (forall j :: 0 <= j < n ==> IsSpace(s[j])) && (n < |s| ==> !IsSpace(s[n]))
    ensures Leading(s) == n
  {
  }

  /** Trailing is the only n whose suffix is all whitespace and is preceded by a non-space. */
  lemma TrailingIs(s: string, n: nat)
    requires n <= |s| && (forall j :: |s| - n <= j < |s| ==> IsSpace(s[j]))
    requires n < |s| ==> !IsSpace(s[|s| - n - 1])
    ensures Trailing(s) == n
  {
  }

  /** Conversely, the trimmed text is the only middle part with no whitespace at its ends. */
  lemma TrimUnique(l: string, m: string, r: string)
    requires AllSpace(l) && AllSpace(r) && NoOuterSpace(m)
    ensures Trim(l + m + r) == m
  {
    var s := l + m + r;
    if m == [] {
      assert AllSpace(s);
      LeadingOfAllSpace(s);
    } else {
      assert s[..|l|] == l;
      assert s[|l|] == m[0];
      LeadingIs(s, |l|);
      assert s[|s| - |r|..] == r;
      assert s[|s| - |r| - 1] == m[|m| - 1];
      TrailingIs(s, |r|);
      assert s[|l|..|s| - |r|] == m;
    }
  }

  /** A text with no whitespace at its ends is its own trim. */
  lemma TrimFixed(m: string)
    requires NoOuterSpace(m)
    ensures Trim(m) == m
  {
    TrimUnique([], m, []);
    assert [] + m + [] == m;
  }

  lemma LeadingOfAllSpace(s: string)
    requires AllSpace(s)
    ensures Leading(s) == |s|
  {
  }

  /** When s is not all whitespace, its two whitespace runs leave a non-empty middle. */
  lemma OuterRunsDisjoint(s: string)
    requires Leading(s) < |s|
    ensures Leading(s) + Trailing(s) < |s|
  {
  }

  /** A string made only of whitespace becomes empty, and only such a string does. */
  lemma TrimEmptyIffAllSpace(s: string)
    ensures Trim(s) == [] <==> AllSpace(s)
  {
    if AllSpace(s) {
      LeadingOfAllSpace(s);
    }
    if Leading(s) < |s| {
      OuterRunsDisjoint(s);
    }
  }

  /** trim is idempotent. */
  lemma TrimIdempotent(s: string)
    ensures Trim(Trim(s)) == Trim(s)
  {
    TrimNoOuterSpace(s);
    TrimFixed(Trim(s));
  }

  /**
   * trim(str) on a NUL-terminated buffer, in place: a NULL pointer is left alone; otherwise
   * the buffer afterwards holds the trimmed string.
   */
  method TrimInPlace(str: array?<char>)
    requires str != null ==> IsCString(str)
    modifies str
    ensures str != null ==> IsCString(str) && Content(str) == Trim(old(Content(str)))
  {
    if str == null {
      return;
    }
    ghost var s := Content(str);
    var length := StrLen(str);
    var start := SkipLeadingSpace(str, length);
    var end := ClearTrailingSpace(str, length);
    ghost var m := Trim(s);
    TrimmedWindow(s, str[..], start, end);
    if start > 0 {
      ShiftLeft(str, start, m);
    }
    HoldsString(str[..], m);
  }

  /**
   * After both loops, the buffer a holds the trimmed string at start, followed by a NUL; when
   * start is 0 it is already in place.
   */
  lemma TrimmedWindow(s: string, a: seq<char>, start: nat, end: int)
    requires NUL !in s && |s| < |a|
    requires start == Leading(s) && end + 1 == |s| - Trailing(s)
    requires forall k :: 0 <= k <= end ==> a[k] == s[k]
    requires forall k :: end < k <= |s| ==> a[k] == NUL
    ensures var m := Trim(s);
      && start + |m| < |a| && a[start + |m|] == NUL
      && (forall i :: start <= i < start + |m| ==> a[i] == m[i - start])
      && (forall i :: 0 <= i < |m| ==> m[i] != NUL)
      && (start == 0 ==> a[..|m|] == m)
  {
    var m := Trim(s);
    TrimWindow(s, start, end);
    forall i | 0 <= i < |m|
      ensures m[i] != NUL && a[start + i] == m[i]
    {
      assert m[i] == s[start + i];
    }
    forall i | start <= i < start + |m|
      ensures a[i] == m[i - start]
    {
      assert a[start + (i - start)] == m[i - start];
    }
    if start == 0 {
      assert forall i :: 0 <= i < |m| ==> a[..|m|][i] == m[i];
    }
  }

  /** A buffer whose first |m| characters are m, followed by a NUL, holds the C string m. */
  lemma HoldsString(a: seq<char>, m: string)
    requires |m| < |a| && a[..|m|] == m && a[|m|] == NUL
    requires forall i :: 0 <= i < |m| ==> m[i] != NUL
    ensures NUL in a && a[..CLen(a)] == m
  {
    CLenAt(a, |m|);
  }

  /** Trim(s) is the window of s after the leading run and up to end, the last non-space. */
  lemma TrimWindow(s: string, start: nat, end: int)
    requires start == Leading(s) && end + 1 == |s| - Trailing(s)
    ensures |Trim(s)| == (if start < |s| then end + 1 - start else 0)
    ensures forall i :: 0 <= i < |Trim(s)| ==> Trim(s)[i] == s[start + i]
  {
    if start < |s| {
      MiddleSplits(s);
      SliceAt(s, start, end + 1);
    }
  }

  lemma SliceAt(s: string, a: nat, b: nat)
    requires a <= b <= |s|
    ensures |s[a..b]| == b - a && forall i :: 0 <= i < b - a ==> s[a..b][i] == s[a + i]
  {
  }

  /** The leading loop of trim: the index of the first non-space character. */
  method SkipLeadingSpace(str: array<char>, length: nat) returns (start: nat)
    requires IsCString(str) && length == |Content(str)|
    ensures start == Leading(Content(str))
  {
    ghost var s := Content(str);
    start := 0;
    while IsSpace(str[start])
      invariant 0 <= start <= length
      invariant AllSpace(s[..start])
      decreases length - start
    {
      start := start + 1;
    }
  }

  /** The trailing loop of trim: overwrites the trailing whitespace run with NULs. */
  method ClearTrailingSpace(str: array<char>, length: nat) returns (end: int)
    requires IsCString(str) && length == |Content(str)|
    modifies str
    ensures end + 1 == length - Trailing(old(Content(str)))
    ensures forall k :: 0 <= k <= end ==> str[k] == old(Content(str))[k]
    ensures forall k :: end < k <= length ==> str[k] == NUL
  {
    ghost var s := Content(str);
    end := length - 1;
    while end >= 0 && IsSpace(str[end])
      invariant -1 <= end < length
      invariant forall k :: 0 <= k <= end ==> str[k] == s[k]
      invariant forall k :: end < k <= length ==> str[k] == NUL
      invariant AllSpace(s[end + 1..])
      decreases end
    {
      str[end] := NUL;
      end := end - 1;
    }
  }

  /** strcpy(str, &str[start]) for a string m stored at start: moves it to the front. */
  method ShiftLeft(str: array<char>, start: nat, ghost m: string)
    requires 0 < start && start + |m| < str.Length
    requires forall i :: start <= i < start + |m| ==> str[i] == m[i - start]
    requires forall i :: 0 <= i < |m| ==> m[i] != NUL
    requires str[start + |m|] == NUL
    modifies str
    ensures str[..|m|] == m && str[|m|] == NUL
  {
    ghost var mid := str[..];
    var k := 0;
    while str[start + k] != NUL
      invariant 0 <= k <= |m|
      invariant forall i :: 0 <= i < k ==> str[i] == m[i]
      invariant forall i :: start + k <= i < str.Length ==> str[i] == mid[i]
      invariant forall i :: start <= i < start + |m| ==> mid[i] == m[i - start]
      invariant forall i :: 0 <= i < |m| ==> m[i] != NUL
      invariant forall i :: start + k <= i < start + |m| ==> str[i] != NUL
      decreases |m| - k
    {
      str[k] := str[start + k];
      k := k + 1;
    }
    assert k == |m|;
    str[k] := NUL;
    assert forall i :: 0 <= i < |m| ==> str[..|m|][i] == m[i];
  }
}
