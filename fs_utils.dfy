/**
 * path_to_unix and path_to_dos from src/fs_utils.c: separator conversion on NUL-terminated
 * buffers, either into a fresh copy or into a caller-supplied buffer.
 */
module FsUtils {
  import opened Wrappers
  import opened CStrings

  /** s with every occurrence of the character a turned into b; every other character kept. */
  function ReplaceChar(s: string, a: char, b: char): (r: string)
    ensures |r| == |s|
    ensures forall i :: 0 <= i < |s| ==> r[i] == (if s[i] == a then b else s[i])
  {
    if s == [] then [] else [if s[0] == a then b else s[0]] + ReplaceChar(s[1..], a, b)
  }

  /** The Unix form of a path: backslashes become slashes. */
  function ToUnix(s: string): (r: string)
    ensures |r| == |s| && '\\' !in r
    ensures forall i :: 0 <= i < |s| && s[i] != '\\' ==> r[i] == s[i]
  {
    ReplaceChar(s, '\\', '/')
  }

  /** The DOS form of a path: slashes become backslashes (src/fs_utils.c:173-177 converts this way round). */
  function ToDos(s: string): (r: string)
    ensures |r| == |s| && '/' !in r
    ensures forall i :: 0 <= i < |s| && s[i] != '/' ==> r[i] == s[i]
  {
    ReplaceChar(s, '/', '\\')
  }

  /** No backslash survives the Unix conversion, and nothing else moves. */
  lemma ToUnixProperties(s: string)
    ensures |ToUnix(s)| == |s| && '\\' !in ToUnix(s)
    ensures forall i :: 0 <= i < |s| && s[i] != '\\' ==> ToUnix(s)[i] == s[i]
    ensures forall i :: 0 <= i < |s| && s[i] == '\\' ==> ToUnix(s)[i] == '/'
  {
  }

  /** No slash survives the DOS conversion, and nothing else moves. */
  lemma ToDosProperties(s: string)
    ensures |ToDos(s)| == |s| && '/' !in ToDos(s)
    ensures forall i :: 0 <= i < |s| && s[i] != '/' ==> ToDos(s)[i] == s[i]
    ensures forall i :: 0 <= i < |s| && s[i] == '/' ==> ToDos(s)[i] == '\\'
  {
  }

  /** Converting twice is converting once. */
  lemma {:induction false} ConversionsIdempotent(s: string)
    ensures ToUnix(ToUnix(s)) == ToUnix(s)
    ensures ToDos(ToDos(s)) == ToDos(s)
  {
    ReplaceCharIdempotent(s, '\\', '/');
    ReplaceCharIdempotent(s, '/', '\\');
  }

  lemma {:induction false} ReplaceCharIdempotent(s: string, a: char, b: char)
    requires a != b
    ensures ReplaceChar(ReplaceChar(s, a, b), a, b) == ReplaceChar(s, a, b)
  {
    var r := ReplaceChar(s, a, b);
    assert forall i :: 0 <= i < |r| ==> ReplaceChar(r, a, b)[i] == r[i];
  }

  /** strchr(buf + from, c) for c other than NUL: the next c before the terminator, if any. */
  method StrChr(buf: array<char>, from: nat, c: char) returns (r: Option<nat>)
    requires IsCString(buf) && from <= |Content(buf)| && c != NUL
    ensures r.Some? ==> from <= r.value < |Content(buf)| && buf[r.value] == c
    ensures r.Some? ==> forall i :: from <= i < r.value ==> buf[i] != c
    ensures r.None? ==> forall i :: from <= i < |Content(buf)| ==> buf[i] != c
  {
    var n := CLen(buf[..]);
    var i := from;
    while i < n
      invariant from <= i <= n
      invariant forall j :: from <= j < i ==> buf[j] != c
    {
      if buf[i] == c {
        return Some(i);
      }
      i := i + 1;
    }
    return None;
  }

  /** The conversion loop: every a of the string in buf becomes b, in place. */
  method ReplaceInPlace(buf: array<char>, a: char, b: char)
    requires IsCString(buf) && a != NUL && b != NUL
    modifies buf
    ensures IsCString(buf) && Content(buf) == ReplaceChar(old(Content(buf)), a, b)
  {
    ghost var s := Content(buf);
    ghost var n := |s|;
    ghost var t := ReplaceChar(s, a, b);
    var p: nat := 0;
    var q := StrChr(buf, p, a);
    while q.Some?
      invariant p <= n && buf[n] == NUL && CLen(buf[..]) == n
      invariant forall i :: 0 <= i < p ==> buf[i] == t[i]
      invariant forall i :: p <= i < buf.Length ==> buf[i] == old(buf[i])
      invariant q.Some? ==> p <= q.value < n && buf[q.value] == a
      invariant q.Some? ==> forall i :: p <= i < q.value ==> buf[i] != a
      invariant q.None? ==> forall i :: p <= i < n ==> buf[i] != a
      decreases n - p
    {
      buf[q.value] := b;
      p := q.value + 1;
      CLenAt(buf[..], n);
      q := StrChr(buf, p, a);
    }
    CLenAt(buf[..], n);
    assert forall i :: 0 <= i < n ==> buf[..n][i] == t[i];
  }

  /** strcpy(dst, src) for distinct buffers, dst large enough. */
  method StrCpy(dst: array<char>, src: array<char>)
    requires IsCString(src) && |Content(src)| < dst.Length && dst != src
    modifies dst
    ensures IsCString(dst) && Content(dst) == Content(src)
  {
    var n := StrLen(src);
    var i := 0;
    while i < n
      invariant i <= n
      invariant forall j :: 0 <= j < i ==> dst[j] == src[j]
    {
      dst[i] := src[i];
      i := i + 1;
    }
    dst[n] := NUL;
    CLenAt(dst[..], n);
    assert dst[..n] == src[..n];
  }

  /** strdup(src): a fresh buffer holding the same string. */
  method StrDup(src: array<char>) returns (dst: array<char>)
    requires IsCString(src)
    ensures fresh(dst) && IsCString(dst) && Content(dst) == Content(src)
  {
    var n := StrLen(src);
    dst := new char[n + 1](_ => NUL);
    StrCpy(dst, src);
  }

  /**
   * The shared body of path_to_unix and path_to_dos, turning a into b: NULL when both
   * arguments are NULL; a fresh converted copy of path when no buffer is given; otherwise
   * path (when given and distinct from the buffer) is copied into the buffer, which is then
   * converted in place and returned.
   */
  method ConvertPath(path: array?<char>, converted: array?<char>, a: char, b: char) returns (r: array?<char>)
    requires a != NUL && b != NUL
    requires path != null ==> IsCString(path)
    requires converted != null && (path == null || path == converted) ==> IsCString(converted)
    requires converted != null && path != null && path != converted ==> |Content(path)| < converted.Length
    modifies converted
    ensures path == null && converted == null ==> r == null
    ensures path != null && converted == null ==>
      r != null && fresh(r) && IsCString(r) && Content(r) == ReplaceChar(old(Content(path)), a, b)
    ensures path != null && converted != null ==>
      r == converted && IsCString(r) && Content(r) == ReplaceChar(old(Content(path)), a, b)
    ensures path == null && converted != null ==>
      r == converted && IsCString(r) && Content(r) == ReplaceChar(old(Content(converted)), a, b)
  {
    if path == null && converted == null {
      return null;
    }
    if converted == null {
      r := StrDup(path);
    } else {
      r := converted;
      if path != null && path != converted {
        StrCpy(r, path);
      }
    }
    ReplaceInPlace(r, a, b);
  }

  /** path_to_unix: ConvertPath turning backslashes into slashes. */
  method PathToUnix(path: array?<char>, converted: array?<char>) returns (r: array?<char>)
    requires path != null ==> IsCString(path)
    requires converted != null && (path == null || path == converted) ==> IsCString(converted)
    requires converted != null && path != null && path != converted ==> |Content(path)| < converted.Length
    modifies converted
    ensures path == null && converted == null ==> r == null
    ensures path != null && converted == null ==>
      r != null && fresh(r) && IsCString(r) && Content(r) == ToUnix(old(Content(path)))
    ensures path != null && converted != null ==>
      r == converted && IsCString(r) && Content(r) == ToUnix(old(Content(path)))
    ensures path == null && converted != null ==>
      r == converted && IsCString(r) && Content(r) == ToUnix(old(Content(converted)))
  {
    r := ConvertPath(path, converted, '\\', '/');
  }

  /** path_to_dos: ConvertPath turning slashes into backslashes. */
  method PathToDos(path: array?<char>, converted: array?<char>) returns (r: array?<char>)
    requires path != null ==> IsCString(path)
    requires converted != null && (path == null || path == converted) ==> IsCString(converted)
    requires converted != null && path != null && path != converted ==> |Content(path)| < converted.Length
    modifies converted
    ensures path == null && converted == null ==> r == null
    ensures path != null && converted == null ==>
      r != null && fresh(r) && IsCString(r) && Content(r) == ToDos(old(Content(path)))
    ensures path != null && converted != null ==>
      r == converted && IsCString(r) && Content(r) == ToDos(old(Content(path)))
    ensures path == null && converted != null ==>
      r == converted && IsCString(r) && Content(r) == ToDos(old(Content(converted)))
  {
    r := ConvertPath(path, converted, '/', '\\');
  }
}
