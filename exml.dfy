/**
 * The MBIN to EXML file name rewrite of get_complete_mbin_list (src/definition.c:499-506):
 * every occurrence of ".MBIN", left to right, is overwritten by ".EXML" in a copy of the name.
 * Also the single-occurrence form that get_input_files and process_definitions use.
 */
module Exml {
  import opened Wrappers
  import opened CStrings

  const MbinExt: string := ".MBIN"
  const ExmlExt: string := ".EXML"

  /** The name with every ".MBIN" replaced by ".EXML", scanning left to right. */
  function ExmlName(s: string): (r: string)
    ensures |r| == |s|
    decreases |s|
  {
    if HasPrefix(s, MbinExt) then ExmlExt + ExmlName(s[5..])
    else if s == [] then []
    else [s[0]] + ExmlName(s[1..])
  }

  /** strstr(s + from, ".MBIN"), as a position in s. */
  function FindFrom(s: string, from: nat): (r: Option<nat>)
    requires from <= |s|
    ensures r.Some? ==> from <= r.value && OccursAt(s, MbinExt, r.value)
    ensures r.Some? ==> forall j :: from <= j < r.value ==> !OccursAt(s, MbinExt, j)
    ensures r.None? ==> forall j :: from <= j <= |s| ==> !OccursAt(s, MbinExt, j)
  {
    OccursShift(s, from);
    match Find(s[from..], MbinExt)
    case None => None
    case Some(k) => Some(from + k)
  }

  lemma OccursShift(s: string, from: nat)
    requires from <= |s|
    ensures forall j :: from <= j <= |s| ==> (OccursAt(s[from..], MbinExt, j - from) <==> OccursAt(s, MbinExt, j))
  {
    forall j | from <= j <= |s|
      ensures OccursAt(s[from..], MbinExt, j - from) <==> OccursAt(s, MbinExt, j)
    {
      if j + 5 <= |s| {
        assert s[from..][j - from..j - from + 5] == s[j..j + 5];
      }
    }
  }

  /** strstr on the name buffer from position from. */
  method StrStr(l: array<char>, from: nat) returns (r: Option<nat>)
    requires from <= l.Length
    ensures r == FindFrom(l[..], from)
  {
    var i := from;
    while i + 5 <= l.Length
      invariant from <= i <= l.Length
      invariant forall j :: from <= j < i ==> !OccursAt(l[..], MbinExt, j)
    {
      if l[i..i + 5] == MbinExt {
        assert l[..][i..i + 5] == l[i..i + 5];
        FindFromIs(l[..], from, i);
        return Some(i);
      }
      assert l[..][i..i + 5] == l[i..i + 5];
      i := i + 1;
    }
    r := None;
  }

  /** The first occurrence at or after from is what strstr finds. */
  lemma FindFromIs(s: string, from: nat, i: nat)
    requires from <= i <= |s| && OccursAt(s, MbinExt, i)
    requires forall j :: from <= j < i ==> !OccursAt(s, MbinExt, j)
    ensures FindFrom(s, from) == Some(i)
  {
  }

  /** The strstr/memcpy loop over the strdup'ed name: each match is overwritten, then the search resumes after it. */
  method ExmlInPlace(l: array<char>)
    modifies l
    ensures l[..] == ExmlName(old(l[..]))
  {
    ghost var s := l[..];
    var pos := 0;
    var e := StrStr(l, 0);
    while e.Some?
      invariant pos <= l.Length
      invariant e == FindFrom(l[..], pos)
      invariant ExmlName(s) == l[..pos] + ExmlName(l[pos..])
      decreases l.Length - pos
    {
      var k := e.value;
      ghost var before := l[..];
      WriteExt(l, k);
      ExmlStep(before, l[..], pos, k);
      pos := k + 5;
      e := StrStr(l, pos);
    }
    ExmlRest(l[..], pos);
  }

  /** When no match is left from pos, the rest of the name is already rewritten. */
  lemma ExmlRest(t: string, pos: nat)
    requires pos <= |t| && FindFrom(t, pos).None?
    ensures t[..pos] + ExmlName(t[pos..]) == t
  {
    OccursShift(t, pos);
    forall j | 0 <= j <= |t[pos..]|
      ensures !OccursAt(t[pos..], MbinExt, j)
    {
      assert !OccursAt(t, MbinExt, j + pos);
    }
    ExmlWithout(t[pos..]);
    assert t[..pos] + t[pos..] == t;
  }

  /** memcpy(l + k, ".EXML", 5). */
  method WriteExt(l: array<char>, k: nat)
    requires k + 5 <= l.Length
    modifies l
    ensures l[..] == old(l[..])[..k] + ExmlExt + old(l[..])[k + 5..]
  {
    forall j | 0 <= j < 5 {
      l[k + j] := ExmlExt[j];
    }
  }

  /** One pass of the loop: the first match at or after pos is rewritten in place. */
  lemma ExmlStep(before: string, after: string, pos: nat, k: nat)
    requires pos <= k && k + 5 <= |before| && FindFrom(before, pos) == Some(k)
    requires after == before[..k] + ExmlExt + before[k + 5..]
    ensures before[..pos] + ExmlName(before[pos..]) == after[..k + 5] + ExmlName(after[k + 5..])
  {
    var t := before[pos..];
    FirstInSuffix(before, pos, k);
    ExmlAtFirst(t, k - pos);
    SplicedParts(before, after, pos, k);
    Regroup(before[..pos], t[..k - pos] + ExmlExt, ExmlName(t[k - pos + 5..]));
  }

  lemma Regroup(p: string, q: string, x: string)
    ensures p + (q + x) == p + q + x
  {
  }

  lemma SplicedParts(before: string, after: string, pos: nat, k: nat)
    requires pos <= k && k + 5 <= |before|
    requires after == before[..k] + ExmlExt + before[k + 5..]
    ensures before[pos..][k - pos + 5..] == after[k + 5..]
    ensures before[..pos] + (before[pos..][..k - pos] + ExmlExt) == after[..k + 5]
  {
    assert before[..pos] + before[pos..][..k - pos] == before[..k];
  }

  /** The first match at or after pos is the first match of the suffix from pos. */
  lemma FirstInSuffix(s: string, pos: nat, k: nat)
    requires pos <= k <= |s| && FindFrom(s, pos) == Some(k)
    ensures OccursAt(s[pos..], MbinExt, k - pos)
    ensures forall j :: 0 <= j < k - pos ==> !OccursAt(s[pos..], MbinExt, j)
  {
    OccursShift(s, pos);
    forall j | 0 <= j < k - pos
      ensures !OccursAt(s[pos..], MbinExt, j)
    {
      assert !OccursAt(s, MbinExt, j + pos);
    }
  }

  /** A name without ".MBIN" is left as it is. */
  lemma {:induction false} ExmlWithout(s: string)
    requires forall j :: 0 <= j <= |s| ==> !OccursAt(s, MbinExt, j)
    ensures ExmlName(s) == s
    decreases |s|
  {
    assert !OccursAt(s, MbinExt, 0);
    if s != [] {
      forall j | 0 <= j <= |s| - 1
        ensures !OccursAt(s[1..], MbinExt, j)
      {
        assert !OccursAt(s, MbinExt, j + 1);
        if j + 5 <= |s| - 1 {
          assert s[1..][j..j + 5] == s[j + 1..j + 6];
        }
      }
      ExmlWithout(s[1..]);
    }
  }

  /** Characters before the first occurrence are copied unchanged. */
  lemma {:induction false} ExmlSkip(t: string, k: nat)
    requires k <= |t| && forall j :: 0 <= j < k ==> !OccursAt(t, MbinExt, j)
    ensures ExmlName(t) == t[..k] + ExmlName(t[k..])
    decreases k
  {
    if k > 0 {
      assert !OccursAt(t, MbinExt, 0);
      assert ExmlName(t) == [t[0]] + ExmlName(t[1..]);
      NoneInTail(t, k);
      ExmlSkip(t[1..], k - 1);
      assert t[1..][k - 1..] == t[k..];
      var head, rest := t[1..][..k - 1], ExmlName(t[k..]);
      assert ExmlName(t[1..]) == head + rest;
      assert [t[0]] + head == t[..k];
      Regroup([t[0]], head, rest);
    } else {
      assert t[..0] + ExmlName(t[0..]) == ExmlName(t);
    }
  }

  /** No occurrence before k in t means none before k - 1 in t without its first character. */
  lemma NoneInTail(t: string, k: nat)
    requires 0 < k <= |t| && forall j :: 0 <= j < k ==> !OccursAt(t, MbinExt, j)
    ensures forall j :: 0 <= j < k - 1 ==> !OccursAt(t[1..], MbinExt, j)
  {
    OccursShift(t, 1);
    forall j | 0 <= j < k - 1
      ensures !OccursAt(t[1..], MbinExt, j)
    {
      assert !OccursAt(t, MbinExt, j + 1);
    }
  }

  /** The first occurrence, at k, becomes ".EXML" and the scan resumes after it. */
  lemma ExmlAtFirst(t: string, k: nat)
    requires OccursAt(t, MbinExt, k) && forall j :: 0 <= j < k ==> !OccursAt(t, MbinExt, j)
    ensures ExmlName(t) == t[..k] + ExmlExt + ExmlName(t[k + 5..])
  {
    ExmlSkip(t, k);
    assert HasPrefix(t[k..], MbinExt);
    assert t[k..][5..] == t[k + 5..];
  }

  /** A prefix without a dot in the rewritten name was already there. */
  lemma {:induction false} PrefixWithoutDot(t: string, w: string)
    requires '.' !in w && HasPrefix(ExmlName(t), w)
    ensures HasPrefix(t, w)
    decreases |t|
  {
    if w != [] && t != [] && !HasPrefix(t, MbinExt) {
      assert ExmlName(t) == [t[0]] + ExmlName(t[1..]);
      assert w[0] == t[0];
      assert '.' !in w[1..];
      assert HasPrefix(ExmlName(t[1..]), w[1..]) by {
        assert ExmlName(t)[1..|w|] == ExmlName(t[1..])[..|w| - 1];
      }
      PrefixWithoutDot(t[1..], w[1..]);
      assert t[..|w|] == [t[0]] + t[1..][..|w| - 1];
      assert w == [w[0]] + w[1..];
    }
  }

  /** No ".MBIN" remains after the rewrite. */
  lemma {:induction false} ExmlNoMbin(s: string)
    ensures forall j :: 0 <= j <= |s| ==> !OccursAt(ExmlName(s), MbinExt, j)
    decreases |s|
  {
    if HasPrefix(s, MbinExt) {
      ExmlNoMbin(s[5..]);
      NoneAfterExt(ExmlName(s[5..]));
    } else if s != [] {
      ExmlNoMbin(s[1..]);
      NoneAfterChar(s);
    }
  }

  /** ".EXML" followed by a text free of ".MBIN" is free of it. */
  lemma NoneAfterExt(rest: string)
    requires forall j :: 0 <= j <= |rest| ==> !OccursAt(rest, MbinExt, j)
    ensures forall j :: 0 <= j <= |rest| + 5 ==> !OccursAt(ExmlExt + rest, MbinExt, j)
  {
    var r := ExmlExt + rest;
    forall j | 0 <= j <= |rest| + 5
      ensures !OccursAt(r, MbinExt, j)
    {
      if j >= 5 {
        assert !OccursAt(rest, MbinExt, j - 5);
        if j + 5 <= |r| {
          assert r[j..j + 5] == rest[j - 5..j];
        }
      } else if j == 0 {
        assert r[..5] == ExmlExt;
        assert ExmlExt[1] != MbinExt[1];
      } else if j + 5 <= |r| {
        assert r[j..j + 5][0] == r[j];
        if j == 1 { assert r[1] == 'E'; }
        else if j == 2 { assert r[2] == 'X'; }
        else if j == 3 { assert r[3] == 'M'; }
        else { assert r[4] == 'L'; }
      }
    }
  }

  /** A kept first character cannot start a ".MBIN" in the rewrite. */
  lemma NoneAfterChar(s: string)
    requires s != [] && !HasPrefix(s, MbinExt)
    requires forall j :: 0 <= j <= |s| - 1 ==> !OccursAt(ExmlName(s[1..]), MbinExt, j)
    ensures forall j :: 0 <= j <= |s| ==> !OccursAt(ExmlName(s), MbinExt, j)
  {
    assert ExmlName(s) == [s[0]] + ExmlName(s[1..]);
    NoneAfterOne(s[0], ExmlName(s[1..]));
    NotAtStart(s);
  }

  /** Putting one character in front creates no occurrence past it. */
  lemma NoneAfterOne(c: char, rest: string)
    requires forall j :: 0 <= j <= |rest| ==> !OccursAt(rest, MbinExt, j)
    ensures forall j :: 1 <= j <= |rest| + 1 ==> !OccursAt([c] + rest, MbinExt, j)
  {
    var r := [c] + rest;
    forall j | 1 <= j <= |rest| + 1
      ensures !OccursAt(r, MbinExt, j)
    {
      assert !OccursAt(rest, MbinExt, j - 1);
      if j + 5 <= |r| {
        assert r[j..j + 5] == rest[j - 1..j + 4];
      }
    }
  }

  lemma NotAtStart(s: string)
    requires s != [] && !HasPrefix(s, MbinExt)
    ensures !OccursAt([s[0]] + ExmlName(s[1..]), MbinExt, 0)
  {
    var rest := ExmlName(s[1..]);
    var r := [s[0]] + rest;
    if OccursAt(r, MbinExt, 0) {
      assert rest[..4] == r[1..5] == "MBIN";
      PrefixWithoutDot(s[1..], "MBIN");
    }
  }

  /** Rewriting twice is rewriting once. */
  lemma ExmlIdempotent(s: string)
    ensures ExmlName(ExmlName(s)) == ExmlName(s)
  {
    ExmlNoMbin(s);
    ExmlWithout(ExmlName(s));
  }

  /**
   * The form of src/definition.c:598-600 and :911-913: strcpy(strstr(name, ".MBIN"), ".EXML")
   * on a copy, which rewrites the first occurrence and drops whatever followed it.
   */
  function ExmlFileName(s: string): (r: string)
    ensures Find(s, MbinExt).None? ==> r == s
    ensures Find(s, MbinExt).Some? ==> r == s[..Find(s, MbinExt).value] + ExmlExt
  {
    match Find(s, MbinExt)
    case None => s
    case Some(k) => s[..k] + ExmlExt
  }

  /** The two forms agree on a name whose only ".MBIN" ends it, the usual case. */
  lemma FormsAgreeOnSuffix(stem: string)
    requires forall j :: 0 <= j <= |stem + MbinExt| - 5 ==> !OccursAt(stem + MbinExt, MbinExt, j) || j == |stem|
    ensures ExmlFileName(stem + MbinExt) == ExmlName(stem + MbinExt)
  {
    var s := stem + MbinExt;
    assert OccursAt(s, MbinExt, |stem|) by {
      assert s[|stem|..|stem| + 5] == MbinExt;
    }
    ExmlAtFirst(s, |stem|);
    assert s[|stem| + 5..] == [];
    assert s[..|stem|] == stem;
  }

  /**
   * They differ whenever text follows the first ".MBIN": the single form drops that text,
   * while the all-occurrences form keeps the length of the name.
   */
  lemma FormsDiffer(s: string)
    requires Find(s, MbinExt).Some? && Find(s, MbinExt).value + 5 < |s|
    ensures ExmlFileName(s) != ExmlName(s)
    ensures |ExmlFileName(s)| < |ExmlName(s)|
  {
    var k := Find(s, MbinExt).value;
    assert ExmlFileName(s) == s[..k] + ExmlExt;
    assert |ExmlFileName(s)| == k + 5;
    assert |ExmlName(s)| == |s|;
  }

  /** An instance: "a.MBIN.x" keeps its ".x" in one form and loses it in the other. */
  lemma FormsDifferExample()
    ensures ExmlName("a.MBIN.x") == "a.EXML.x"
    ensures ExmlFileName("a.MBIN.x") == "a.EXML"
  {
    var s := "a.MBIN.x";
    assert s[..5][0] == 'a';
    assert !OccursAt(s, MbinExt, 0);
    assert s[1..6] == MbinExt;
    assert Find(s, MbinExt) == Some(1);
    assert s[..1] == "a";
    assert ExmlFileName(s) == s[..1] + ExmlExt;
    ExmlAtFirst(s, 1);
    assert s[6..] == ".x";
    ExmlWithout(".x");
  }
}
