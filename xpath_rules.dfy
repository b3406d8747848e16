/**
 * The rules set_xpath follows (src/definition.c:718-783), stated over Translate and Step.
 */
module XPathRules {
  import opened Wrappers
  import opened CStrings
  import opened XPath

  // ---- the buffer ----

  /** A NULL selector clears the buffer, whatever it held. */
  lemma NullClears(buffer: string)
    ensures Translate(buffer, None) == Ok([])
  {
  }

  /** An absolute selector starts over at /Data: the old buffer does not matter. */
  lemma AbsoluteIgnoresBuffer(b1: string, b2: string, s: string)
    requires |s| > 0 && s[0] == '/'
    ensures Translate(b1, Some(s)) == Translate(b2, Some(s))
    ensures Translate(b1, Some(s)).Ok? ==> HasPrefix(Translate(b1, Some(s)).value, "/Data")
  {
  }

  /** A relative selector extends a non-empty buffer by '/' and its own translation. */
  lemma RelativeExtendsBuffer(buffer: string, s: string)
    requires buffer != [] && (s == [] || s[0] != '/')
    ensures Translate(buffer, Some(s)).Ok? <==> Translate([], Some(s)).Ok?
    ensures Translate(buffer, Some(s)).Ok? ==>
      Translate(buffer, Some(s)).value == buffer + "/" + Translate([], Some(s)).value
  {
  }

  /** Every step is non-empty text. */
  lemma StepNonEmpty(token: string)
    ensures Step(token).Ok? ==> Step(token).value != []
  {
  }

  /** Joining two non-empty token lists puts exactly one '/' between their translations. */
  lemma {:induction false} JoinStepsAppend(xs: seq<string>, ys: seq<string>)
    requires xs != [] && ys != []
    requires JoinSteps(xs).Ok? && JoinSteps(ys).Ok?
    ensures JoinSteps(xs + ys) == Ok(JoinSteps(xs).value + "/" + JoinSteps(ys).value)
    decreases |xs|
  {
    var zs := xs + ys;
    assert zs[0] == xs[0] && zs[1..] == xs[1..] + ys;
    var v := Step(xs[0]).value;
    if |xs| == 1 {
      assert xs[1..] + ys == ys;
      assert JoinSteps(xs) == Ok(v);
    } else {
      JoinStepsAppend(xs[1..], ys);
      var w := JoinSteps(xs[1..]).value;
      assert JoinSteps(xs) == Ok(v + "/" + w);
      assert v + "/" + (w + "/" + JoinSteps(ys).value) == v + "/" + w + "/" + JoinSteps(ys).value;
    }
  }

  /**
   * The buffer works as a working directory: `cd a` then `cd b` reaches the same XPath as
   * `cd a/b`, for relative a and b that translate without error.
   */
  lemma {:induction false} CdComposes(buffer: string, a: string, b: string)
    requires a != [] && a[0] != '/' && b != [] && b[0] != '/'
    requires Tokens(a, Slash) != [] && Tokens(b, Slash) != []
    requires JoinSteps(Tokens(a, Slash)).Ok? && JoinSteps(Tokens(b, Slash)).Ok?
    ensures Translate(Translate(buffer, Some(a)).value, Some(b)) == Translate(buffer, Some(a + "/" + b))
  {
    var ja := JoinSteps(Tokens(a, Slash)).value;
    var jb := JoinSteps(Tokens(b, Slash)).value;
    CdTwice(buffer, a, b);
    CdOnce(buffer, a, b);
  }

  /** `cd a` then `cd b` appends '/' and b's steps to what `cd a` reached. */
  lemma CdTwice(buffer: string, a: string, b: string)
    requires a != [] && a[0] != '/' && Tokens(a, Slash) != []
    requires JoinSteps(Tokens(a, Slash)).Ok? && JoinSteps(Tokens(b, Slash)).Ok?
    requires b != [] && b[0] != '/'
    ensures Translate(Translate(buffer, Some(a)).value, Some(b))
      == Ok(Base(buffer, a) + JoinSteps(Tokens(a, Slash)).value + "/" + JoinSteps(Tokens(b, Slash)).value)
  {
    JoinStepsHead(Tokens(a, Slash));
    var after := Base(buffer, a) + JoinSteps(Tokens(a, Slash)).value;
    TranslateOk(buffer, a);
    TranslateOk(after, b);
  }

  /** `cd a/b` reaches a's base followed by the steps of a, '/', and the steps of b. */
  lemma CdOnce(buffer: string, a: string, b: string)
    requires a != [] && a[0] != '/' && Tokens(a, Slash) != [] && Tokens(b, Slash) != []
    requires JoinSteps(Tokens(a, Slash)).Ok? && JoinSteps(Tokens(b, Slash)).Ok?
    ensures Translate(buffer, Some(a + "/" + b))
      == Ok(Base(buffer, a) + JoinSteps(Tokens(a, Slash)).value + "/" + JoinSteps(Tokens(b, Slash)).value)
  {
    var ja := JoinSteps(Tokens(a, Slash)).value;
    var jb := JoinSteps(Tokens(b, Slash)).value;
    JoinedTokens(a, b);
    TranslateOk(buffer, a + "/" + b);
    RelativeBase(buffer, a, b);
    Regroup(Base(buffer, a), ja, jb);
  }

  lemma Regroup(p: string, x: string, y: string)
    ensures p + (x + "/" + y) == p + x + "/" + y
  {
  }

  /** Appending to a relative selector keeps its base. */
  lemma RelativeBase(buffer: string, a: string, b: string)
    requires a != [] && a[0] != '/'
    ensures Base(buffer, a + "/" + b) == Base(buffer, a)
  {
  }

  /** A selector whose steps translate gives its base followed by the joined steps. */
  lemma TranslateOk(buffer: string, s: string)
    requires JoinSteps(Tokens(s, Slash)).Ok?
    ensures Translate(buffer, Some(s)) == Ok(Base(buffer, s) + JoinSteps(Tokens(s, Slash)).value)
  {
  }

  /** The steps of `a/b` are those of a, a '/', then those of b. */
  lemma JoinedTokens(a: string, b: string)
    requires Tokens(a, Slash) != [] && Tokens(b, Slash) != []
    requires JoinSteps(Tokens(a, Slash)).Ok? && JoinSteps(Tokens(b, Slash)).Ok?
    ensures JoinSteps(Tokens(a + "/" + b, Slash))
      == Ok(JoinSteps(Tokens(a, Slash)).value + "/" + JoinSteps(Tokens(b, Slash)).value)
  {
    assert a + "/" + b == a + ['/'] + b;
    TokensSplit(a, '/', b, Slash);
    JoinStepsAppend(Tokens(a, Slash), Tokens(b, Slash));
  }

  /** A successful join starts with the first token's step, so it is never empty. */
  lemma JoinStepsHead(tokens: seq<string>)
    requires tokens != [] && JoinSteps(tokens).Ok?
    ensures Step(tokens[0]).Ok? && HasPrefix(JoinSteps(tokens).value, Step(tokens[0]).value)
    ensures JoinSteps(tokens).value != []
  {
    StepNonEmpty(tokens[0]);
  }

  /** strtok collapses empty segments: `a//b` is `a/b`. */
  lemma {:induction false} EmptySegmentsCollapse(buffer: string, a: string, b: string)
    requires a != []
    ensures Translate(buffer, Some(a + "//" + b)) == Translate(buffer, Some(a + "/" + b))
  {
    var s2, s1 := a + "//" + b, a + "/" + b;
    assert s2[0] == a[0] == s1[0];
    assert Base(buffer, s2) == Base(buffer, s1);
    DoubleSlashTokens(a, b);
  }

  lemma DoubleSlashTokens(a: string, b: string)
    ensures Tokens(a + "//" + b, Slash) == Tokens(a + "/" + b, Slash)
  {
    TokensSplit(a, '/', ['/'] + b, Slash);
    TokensOfDelimiterFirst('/', b, Slash);
    TokensSplit(a, '/', b, Slash);
    assert a + "//" + b == a + ['/'] + (['/'] + b);
    assert a + "/" + b == a + ['/'] + b;
  }

  // ---- the tokens ----

  /** Any token starting with '*' is the wildcard, whatever follows. */
  lemma StarToken(rest: string)
    ensures Step(['*'] + rest) == Ok("*")
  {
  }

  /** `..` is the parent step. */
  lemma ParentToken()
    ensures Step("..") == Ok("..")
  {
  }

  /** A bare name is a Property test on its name attribute. */
  lemma NameToken(name: string)
    requires name != [] && name[0] != '*' && name != ".." && '=' !in name
    ensures Step(name) == Ok(NameStep(name))
  {
  }

  /** `n=v` tests both attributes; the value is everything after the first '='. */
  lemma {:induction false} PairToken(name: string, value: string)
    requires name != [] && name[0] != '*' && '=' !in name && name[|name| - 1] != '['
    ensures Step(name + "=" + value) == Ok(ValueStep(name, value))
    ensures NamePart(name) == "@name='" + name + "' and "
  {
    var t := name + "=" + value;
    FirstOccurrence(name, '=', value);
    assert t[..|name|] == name && t[|name| + 1..] == value;
    assert t != "..";
  }

  /** `=v` drops the name test. */
  lemma {:induction false} ValueOnlyToken(value: string)
    ensures Step("=" + value) == Ok(ValueStep([], value)) && NamePart([]) == []
  {
    var t := "=" + value;
    assert IndexOf(t, '=') == Some(0);
    assert t[1..] == value;
    assert t != "..";
  }

  /** `n[=v]` is the bracketed form of `n=v`. */
  lemma {:induction false} BracketToken(name: string, value: string)
    requires (name == [] || name[0] != '*') && '=' !in name && ']' !in value
    ensures Step(name + "[=" + value + "]") == Ok(ValueStep(name, value))
  {
    var t := name + "[=" + value + "]";
    var i := |name| + 1;
    assert t == (name + "[") + "=" + (value + "]");
    FirstOccurrence(name + "[", '=', value + "]");
    assert t[0] != '*' && t != "..";
    StepOfPair(t, i);
    BracketPair(t, name, value);
  }

  /** A token that does not start with '*', is not `..`, and has its first '=' at i is a pair. */
  lemma StepOfPair(t: string, i: nat)
    requires IndexOf(t, '=') == Some(i) && t[0] != '*' && t != ".."
    ensures Step(t) == PairStep(t, i)
  {
  }

  lemma BracketPair(t: string, name: string, value: string)
    requires ']' !in value && t == (name + "[") + "=" + (value + "]")
    ensures PairStep(t, |name| + 1) == Ok(ValueStep(name, value))
  {
    var i := |name| + 1;
    assert t[i - 1] == '[' && t[..i - 1] == name && t[i + 1..] == value + "]";
    FirstOccurrence(value, ']', []);
    assert value + "]" + [] == value + "]";
    assert (value + "]")[..|value|] == value;
  }

  /** `n[=v` without a closing ']' is fatal. */
  lemma {:induction false} MissingBracketToken(name: string, value: string)
    requires (name == [] || name[0] != '*') && '=' !in name && ']' !in value
    ensures Step(name + "[=" + value) == Err(MissingBracket)
  {
    var t := name + "[=" + value;
    assert t == (name + "[") + "=" + value;
    FirstOccurrence(name + "[", '=', value);
    assert t[|name|] == '[' && t[|name| + 2..] == value;
    assert t[0] != '*' && t != "..";
    StepOfPair(t, |name| + 1);
  }

  /** `n[=v]x` with anything after the ']' is fatal. */
  lemma {:induction false} DataAfterBracketToken(name: string, value: string, extra: string)
    requires (name == [] || name[0] != '*') && '=' !in name && ']' !in value && extra != []
    ensures Step(name + "[=" + value + "]" + extra) == Err(DataAfterBracket)
  {
    var t := name + "[=" + value + "]" + extra;
    var i := |name| + 1;
    FirstOccurrence(name + "[", '=', value + "]" + extra);
    assert t == (name + "[") + "=" + (value + "]" + extra);
    assert t[|name|] == '[';
    assert t[0] != '*' && t != "..";
    StepOfPair(t, i);
    assert t[i + 1..] == value + "]" + extra;
    BracketThenMore(t, i, value, extra);
  }

  /** A bracketed pair whose value has text after its first ']'. */
  lemma BracketThenMore(t: string, i: nat, value: string, extra: string)
    requires 0 < i < |t| && t[i - 1] == '[' && t[i + 1..] == value + "]" + extra
    requires ']' !in value && extra != []
    ensures PairStep(t, i) == Err(DataAfterBracket)
  {
    FirstOccurrence(value, ']', extra);
  }

  /**
   * The bracket must come right before '=': `Item=[Sword` is an ordinary pair whose value
   * starts with '[', and no error is raised.
   */
  lemma OpenBracketAfterEqualsIsValue(name: string, value: string)
    requires name != [] && name[0] != '*' && '=' !in name && name[|name| - 1] != '['
    ensures Step(name + "=[" + value) == Ok(ValueStep(name, "[" + value))
  {
    PairToken(name, "[" + value);
    assert name + "=[" + value == name + "=" + ("[" + value);
  }

  /**
   * The '*' test on the name of a pair (src/definition.c:752) never decides anything: a token
   * that reaches it does not start with '*', and neither does its non-empty name.
   */
  lemma NameTestStar(token: string, i: nat)
    requires i < |token| && token[i] == '=' && (token == [] || token[0] != '*')
    ensures var name := if i > 0 && token[i - 1] == '[' then token[..i - 1] else token[..i];
      name != [] ==> name[0] != '*'
  {
  }

  /** strchr/strstr on a one-character needle finds it right after a prefix free of it. */
  lemma FirstOccurrence(a: string, c: char, b: string)
    requires c !in a
    ensures IndexOf(a + [c] + b, c) == Some(|a|)
  {
    var t := a + [c] + b;
    assert t[|a|] == c && t[..|a|] == a;
  }
}
