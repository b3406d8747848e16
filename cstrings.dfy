/**
 * The pieces of the C library that the core leans on, stated over Dafny strings:
 * NUL-terminated buffers (strlen), isspace in the C locale, strchr, strncmp-style prefix
 * tests, strstr and strtok.
 */
module CStrings {
  import opened Wrappers

  const NUL: char := '\0'

  /** isspace in the C locale: space, tab, newline, vertical tab, form feed, carriage return. */
  predicate IsSpace(c: char) {
    c == ' ' || c == '\t' || c == '\n' || c == '\U{B}' || c == '\U{C}' || c == '\r'
  }

  /** The six characters are the space and the control range from tab to carriage return. */
  lemma IsSpaceRange(c: char)
    ensures IsSpace(c) <==> c == ' ' || '\t' <= c <= '\r'
  {
  }

  /** The index of the first NUL of a buffer: the C string length. */
  function CLen(s: seq<char>): (n: nat)
    requires NUL in s
    ensures n < |s| && s[n] == NUL
    ensures forall i :: 0 <= i < n ==> s[i] != NUL
  {
    if s[0] == NUL then 0 else 1 + CLen(s[1..])
  }

  lemma CLenAt(s: seq<char>, n: nat)
    requires n < |s| && s[n] == NUL
    requires forall i :: 0 <= i < n ==> s[i] != NUL
    ensures CLen(s) == n
  {
  }

  /** A buffer holds a C string when it contains a terminating NUL. */
  predicate IsCString(a: array<char>)
    reads a
  {
    NUL in a[..]
  }

  /** The C string a buffer holds: its characters before the first NUL. */
  function Content(a: array<char>): (s: string)
    reads a
    requires IsCString(a)
    ensures NUL !in s
  {
    a[..CLen(a[..])]
  }

  /** strlen, as the scan the C library performs. */
  method StrLen(a: array<char>) returns (n: nat)
    requires IsCString(a)
    ensures n == |Content(a)| && n < a.Length && a[n] == NUL
  {
    n := 0;
    while a[n] != NUL
      invariant n <= CLen(a[..])
      decreases CLen(a[..]) - n
    {
      n := n + 1;
    }
  }

  /** strncmp(s, p, strlen(p)) == 0: the string starts with p. */
  predicate HasPrefix(s: string, p: string) {
    |p| <= |s| && s[..|p|] == p
  }

  /** s starts with p exactly when s is p followed by the rest of s. */
  lemma HasPrefixIsJoin(s: string, p: string)
    ensures HasPrefix(s, p) <==> |p| <= |s| && s == p + s[|p|..]
    ensures HasPrefix(p + s, p)
  {
    assert (p + s)[..|p|] == p;
  }

  /** strchr on a string: the index of the first occurrence of c. */
  function IndexOf(s: string, c: char): (r: Option<nat>)
    ensures r.Some? ==> r.value < |s| && s[r.value] == c && c !in s[..r.value]
    ensures r.None? <==> c !in s
  {
    if s == [] then None
    else if s[0] == c then Some(0)
    else match IndexOf(s[1..], c)
      case None => None
      case Some(k) =>
        assert s[1..][..k] == s[1..k + 1];
        Some(k + 1)
  }

  /** The pattern p occurs in s at position i. */
  predicate OccursAt(s: string, p: string, i: nat) {
    i + |p| <= |s| && s[i..i + |p|] == p
  }

  /** strstr: the position of the first occurrence of p in s. */
  function Find(s: string, p: string): (r: Option<nat>)
    ensures r.Some? ==> OccursAt(s, p, r.value) && forall j :: 0 <= j < r.value ==> !OccursAt(s, p, j)
    ensures r.None? ==> forall j :: 0 <= j <= |s| ==> !OccursAt(s, p, j)
    decreases |s|
  {
    if HasPrefix(s, p) then Some(0)
    else if s == [] then None
    else match Find(s[1..], p)
      case None =>
        assert forall j :: 1 <= j <= |s| ==> (OccursAt(s, p, j) <==> OccursAt(s[1..], p, j - 1));
        None
      case Some(k) =>
        assert forall j :: 1 <= j <= |s| ==> (OccursAt(s, p, j) <==> OccursAt(s[1..], p, j - 1));
        Some(k + 1)
  }

  /**
   * The end of a strtok token: the token runs from the start of s up to the first delimiter;
   * the second component is the text after that delimiter (empty when none was found).
   */
  function TokenEnd(s: string, delims: set<char>): (r: (string, string))
    ensures |r.0| <= |s| && r.0 == s[..|r.0|]
    ensures forall i :: 0 <= i < |r.0| ==> r.0[i] !in delims
    ensures |r.0| < |s| ==> s[|r.0|] in delims && r.1 == s[|r.0| + 1..]
    ensures |r.0| == |s| ==> r.1 == []
  {
    if s == [] then ([], [])
    else if s[0] in delims then ([], s[1..])
    else
      var (t, rest) := TokenEnd(s[1..], delims);
      ([s[0]] + t, rest)
  }

  /**
   * One strtok call on s: leading delimiters are skipped; None when nothing but delimiters
   * remains, else the token and the text where the next call resumes.
   */
  function Strtok(s: string, delims: set<char>): (r: Option<(string, string)>)
    ensures r.None? <==> forall i :: 0 <= i < |s| ==> s[i] in delims
    ensures r.Some? ==> |r.value.0| > 0 && |r.value.1| < |s|
    ensures r.Some? ==> forall i :: 0 <= i < |r.value.0| ==> r.value.0[i] !in delims
    decreases |s|
  {
    if s == [] then None
    else if s[0] in delims then Strtok(s[1..], delims)
    else Some(TokenEnd(s, delims))
  }

  /** Every token successive strtok calls return, in order. */
  function Tokens(s: string, delims: set<char>): (ts: seq<string>)
    ensures forall k :: 0 <= k < |ts| ==> |ts[k]| > 0
    decreases |s|
  {
    match Strtok(s, delims)
    case None => []
    case Some((t, rest)) => [t] + Tokens(rest, delims)
  }

  /** Some character of a is a delimiter. */
  predicate HasDelimiter(a: string, delims: set<char>) {
    exists i :: 0 <= i < |a| && a[i] in delims
  }

  lemma TokenEndSplit(a: string, d: char, b: string, delims: set<char>)
    requires d in delims
    ensures !HasDelimiter(a, delims) ==> TokenEnd(a + [d] + b, delims) == (a, b)
    ensures HasDelimiter(a, delims) ==>
      TokenEnd(a + [d] + b, delims) == (TokenEnd(a, delims).0, TokenEnd(a, delims).1 + [d] + b)
  {
    if HasDelimiter(a, delims) {
      TokenEndInside(a, d, b, delims);
    } else {
      TokenEndAfter(a, d, b, delims);
    }
  }

  /** A delimiter inside a ends the token there. */
  lemma TokenEndInside(a: string, d: char, b: string, delims: set<char>)
    requires HasDelimiter(a, delims)
    ensures TokenEnd(a + [d] + b, delims) == (TokenEnd(a, delims).0, TokenEnd(a, delims).1 + [d] + b)
  {
    var n := |TokenEnd(a, delims).0|;
    DelimiterEndsToken(a, delims);
    SliceOfJoin(a, [d], b, n + 1);
    TokenEndInJoin(a, [d], b, delims, n);
  }

  /** With a delimiter in a, the token stops before a's end, at a delimiter. */
  lemma DelimiterEndsToken(a: string, delims: set<char>)
    requires HasDelimiter(a, delims)
    ensures |TokenEnd(a, delims).0| < |a| && a[|TokenEnd(a, delims).0|] in delims
    ensures forall i :: 0 <= i < |TokenEnd(a, delims).0| ==> a[i] !in delims
  {
    var t := TokenEnd(a, delims).0;
    forall i | 0 <= i < |t| ensures a[i] !in delims {
      assert a[i] == t[i];
    }
  }

  /** A first delimiter at n < |a| ends the token of a + m + b at n as well. */
  lemma TokenEndInJoin(a: string, m: string, b: string, delims: set<char>, n: nat)
    requires n < |a| && a[n] in delims && forall i :: 0 <= i < n ==> a[i] !in delims
    ensures TokenEnd(a + m + b, delims) == (a[..n], (a + m + b)[n + 1..])
  {
    var s := a + m + b;
    forall i | 0 <= i < n ensures s[i] !in delims {
      assert s[i] == a[i];
    }
    assert s[n] == a[n];
    TokenEndIs(s, delims, n);
    assert s[..n] == a[..n];
  }

  lemma SliceOfJoin<T>(a: seq<T>, m: seq<T>, b: seq<T>, k: nat)
    requires k <= |a|
    ensures (a + m + b)[k..] == a[k..] + m + b
  {
  }

  /** Without a delimiter in a, the token is a and the rest is b. */
  lemma TokenEndAfter(a: string, d: char, b: string, delims: set<char>)
    requires d in delims && !HasDelimiter(a, delims)
    ensures TokenEnd(a + [d] + b, delims) == (a, b)
  {
    var s := a + [d] + b;
    TokenEndIs(s, delims, |a|);
    assert s[..|a|] == a;
    assert s[|a| + 1..] == b;
  }

  /** The token ends at the first delimiter: TokenEnd is fixed by where that delimiter is. */
  lemma TokenEndIs(s: string, delims: set<char>, n: nat)
    requires n <= |s| && (forall i :: 0 <= i < n ==> s[i] !in delims) && (n < |s| ==> s[n] in delims)
    ensures TokenEnd(s, delims) == (s[..n], if n < |s| then s[n + 1..] else [])
  {
  }

  lemma {:induction false} TokensOfDelimiterFirst(d: char, b: string, delims: set<char>)
    requires d in delims
    ensures Tokens([d] + b, delims) == Tokens(b, delims)
  {
    assert ([d] + b)[1..] == b;
  }

  lemma {:induction false} TokensOfLeadingDelimiter(a: string, delims: set<char>)
    requires a != [] && a[0] in delims
    ensures Tokens(a, delims) == Tokens(a[1..], delims)
  {
  }

  lemma {:induction false} TokensOfLeadingWord(a: string, delims: set<char>)
    requires a != [] && a[0] !in delims
    ensures Tokens(a, delims) == [TokenEnd(a, delims).0] + Tokens(TokenEnd(a, delims).1, delims)
  {
  }

  /** A delimiter splits the token stream: the tokens of a + d + b are those of a, then those of b. */
  lemma {:induction false} TokensSplit(a: string, d: char, b: string, delims: set<char>)
    requires d in delims
    ensures Tokens(a + [d] + b, delims) == Tokens(a, delims) + Tokens(b, delims)
    decreases |a|
  {
    var s := a + [d] + b;
    if a == [] {
      assert s == [d] + b;
      TokensOfDelimiterFirst(d, b, delims);
    } else if a[0] in delims {
      assert s[1..] == a[1..] + [d] + b;
      TokensOfLeadingDelimiter(s, delims);
      TokensOfLeadingDelimiter(a, delims);
      TokensSplit(a[1..], d, b, delims);
    } else {
      if HasDelimiter(a, delims) {
        var rest := TokenEnd(a, delims).1;
        assert |rest| < |a|;
        TokensSplit(rest, d, b, delims);
      }
      TokensSplitAtWord(a, d, b, delims);
    }
  }

  /** The step of TokensSplit where a starts with a token character, given the split of what follows it. */
  lemma {:induction false} TokensSplitAtWord(a: string, d: char, b: string, delims: set<char>)
    requires d in delims && a != [] && a[0] !in delims
    requires HasDelimiter(a, delims) ==>
      Tokens(TokenEnd(a, delims).1 + [d] + b, delims) == Tokens(TokenEnd(a, delims).1, delims) + Tokens(b, delims)
    ensures Tokens(a + [d] + b, delims) == Tokens(a, delims) + Tokens(b, delims)
  {
    var s := a + [d] + b;
    assert s[0] == a[0];
    TokensOfLeadingWord(s, delims);
    TokensOfLeadingWord(a, delims);
    TokenEndSplit(a, d, b, delims);
    if HasDelimiter(a, delims) {
      LongTokenSplit(a, d, b, delims);
    } else {
      WholeTokenSplit(a, d, b, delims);
    }
  }

  lemma {:induction false} LongTokenSplit(a: string, d: char, b: string, delims: set<char>)
    requires Tokens(a + [d] + b, delims) == [TokenEnd(a, delims).0] + Tokens(TokenEnd(a, delims).1 + [d] + b, delims)
    requires Tokens(a, delims) == [TokenEnd(a, delims).0] + Tokens(TokenEnd(a, delims).1, delims)
    requires Tokens(TokenEnd(a, delims).1 + [d] + b, delims) == Tokens(TokenEnd(a, delims).1, delims) + Tokens(b, delims)
    ensures Tokens(a + [d] + b, delims) == Tokens(a, delims) + Tokens(b, delims)
  {
    var t := TokenEnd(a, delims);
    ConsAssoc(t.0, Tokens(t.1, delims), Tokens(b, delims));
  }

  lemma ConsAssoc<T>(x: T, p: seq<T>, q: seq<T>)
    ensures [x] + (p + q) == [x] + p + q
  {
  }

  lemma {:induction false} WholeTokenSplit(a: string, d: char, b: string, delims: set<char>)
    requires a != [] && forall i :: 0 <= i < |a| ==> a[i] !in delims
    requires Tokens(a + [d] + b, delims) == [a] + Tokens(b, delims)
    ensures Tokens(a + [d] + b, delims) == Tokens(a, delims) + Tokens(b, delims)
  {
    TokensOfWord(a, delims);
  }

  /** A non-empty text free of delimiters is a single token. */
  lemma TokensOfWord(w: string, delims: set<char>)
    requires |w| > 0 && forall i :: 0 <= i < |w| ==> w[i] !in delims
    ensures Tokens(w, delims) == [w]
  {
    var r := TokenEnd(w, delims);
    assert r.0 == w;
    assert Strtok(w, delims) == Some((w, []));
    assert Tokens([], delims) == [];
  }
}
