/**
 * set_xpath (src/definition.c:718-783): turns a `cd` selector into an XPath 1.0 expression in
 * abbreviated syntax (section 2.5 of the XPath 1.0 recommendation), accumulating in a global
 * buffer the way a working directory does.
 */
module XPath {
  import opened Wrappers
  import opened CStrings

  /** The two fatal selector errors; the C prints a message and exits. */
  datatype SelectorError = MissingBracket | DataAfterBracket

  const Slash: set<char> := {'/'}

  /** The name predicate of a `name=value` step; the '*' test can never fail (see NameTestStar). */
  function NamePart(name: string): string {
    if name != [] && name[0] != '*' then "@name='" + name + "' and " else ""
  }

  /**
   * One selector token as an XPath step: a token starting with '*' is `*`, `..` stays, a token
   * with '=' is a Property test on name and value (with `name[=value]` the value ends at ']',
   * which must be there and must end the token), anything else a Property test on name.
   */
  function Step(token: string): (r: Result<string, SelectorError>)
    ensures r.Ok? ==> r.value != []
    ensures r.Err? ==> '=' in token && '[' in token
  {
    if |token| > 0 && token[0] == '*' then Ok("*")
    else if token == ".." then Ok("..")
    else match IndexOf(token, '=')
      case None => Ok(NameStep(token))
      case Some(i) => PairStep(token, i)
  }

  /** A bare token: a Property child with that name. */
  function NameStep(name: string): (r: string)
    ensures |r| == |name| + 18 && r[16..16 + |name|] == name
  {
    "Property[@name='" + name + "']"
  }

  /** A token whose first '=' is at i. */
  function PairStep(token: string, i: nat): (r: Result<string, SelectorError>)
    requires i < |token|
    ensures r.Err? ==> 0 < i && token[i - 1] == '['
    ensures r == Err(MissingBracket) <==> 0 < i && token[i - 1] == '[' && ']' !in token[i + 1..]
  {
    var bracket := i > 0 && token[i - 1] == '[';
    var name := if bracket then token[..i - 1] else token[..i];
    var value := token[i + 1..];
    if !bracket then Ok(ValueStep(name, value))
    else match IndexOf(value, ']')
      case None => Err(MissingBracket)
      case Some(k) =>
        if k + 1 < |value| then Err(DataAfterBracket)
        else Ok(ValueStep(name, value[..k]))
  }

  /** A Property child with this value attribute, and this name unless the name is empty. */
  function ValueStep(name: string, value: string): (r: string)
    ensures HasPrefix(r, "Property[")
    ensures |r| >= |value| + 2 && r[|r| - |value| - 2..|r| - 2] == value
  {
    "Property[" + NamePart(name) + "@value='" + value + "']"
  }

  /** The steps of a token list joined with '/', or the first token's error. */
  function JoinSteps(tokens: seq<string>): (r: Result<string, SelectorError>)
    ensures r.Ok? <==> forall k :: 0 <= k < |tokens| ==> Step(tokens[k]).Ok?
    ensures r.Ok? ==> (r.value == [] <==> tokens == [])
  {
    if tokens == [] then Ok("")
    else match Step(tokens[0])
      case Err(e) => Err(e)
      case Ok(s) =>
        if |tokens| == 1 then Ok(s)
        else match JoinSteps(tokens[1..])
          case Err(e) => Err(e)
          case Ok(t) => Ok(s + "/" + t)
  }

  /** The buffer text the steps are added to: `/Data` for an absolute selector, else the buffer. */
  function Base(buffer: string, selector: string): (r: string)
    ensures |selector| > 0 && selector[0] == '/' ==> HasPrefix(r, "/Data")
    ensures !(|selector| > 0 && selector[0] == '/') ==> HasPrefix(r, buffer)
    ensures r == [] || r == "/Data" || r[|r| - 1] == '/'
  {
    if |selector| > 0 && selector[0] == '/' then "/Data" + (if |selector| > 1 then "/" else "")
    else if buffer != [] then buffer + "/"
    else buffer
  }

  /** The buffer after set_xpath(selector); None is the NULL selector. */
  function Translate(buffer: string, selector: Option<string>): (r: Result<string, SelectorError>)
    ensures selector.None? ==> r == Ok("")
    ensures r.Ok? && selector.Some? && |selector.value| > 0 && selector.value[0] == '/' ==> HasPrefix(r.value, "/Data")
    ensures r.Ok? && selector.Some? && !(|selector.value| > 0 && selector.value[0] == '/') ==> HasPrefix(r.value, buffer)
  {
    match selector
    case None => Ok("")
    case Some(s) =>
      match JoinSteps(Tokens(s, Slash))
      case Err(e) => Err(e)
      case Ok(steps) => Ok(Base(buffer, s) + steps)
  }

  function Prepend(acc: string, r: Result<string, SelectorError>): Result<string, SelectorError> {
    match r
    case Err(e) => Err(e)
    case Ok(t) => Ok(acc + t)
  }

  /** The global xpath buffer. */
  class XPathBuffer {
    var xpath: string

    constructor ()
      ensures xpath == []
    {
      xpath := [];
    }

    /** set_xpath(selector): on an error the C exits, so the buffer is then left unspecified. */
    method SetXPath(selector: Option<string>) returns (r: Result<(), SelectorError>)
      modifies this
      ensures Translate(old(xpath), selector).Ok? <==> r.Ok?
      ensures r.Ok? ==> Translate(old(xpath), selector) == Ok(xpath)
      ensures r.Err? ==> Translate(old(xpath), selector) == Err(r.error)
    {
      if selector.None? {
        xpath := [];
        return Ok(());
      }
      var s := selector.value;
      if |s| > 0 && s[0] == '/' {
        xpath := "/Data";
        if |s| > 1 {
          xpath := xpath + "/";
        }
      } else if xpath != [] {
        xpath := xpath + "/";
      }
      assert xpath == Base(old(xpath), s);
      r := AppendSteps(s);
    }

    /** The strtok loop of set_xpath: each token's step appended, '/' between steps. */
    method AppendSteps(s: string) returns (r: Result<(), SelectorError>)
      modifies this
      ensures JoinSteps(Tokens(s, Slash)).Ok? <==> r.Ok?
      ensures r.Ok? ==> xpath == old(xpath) + JoinSteps(Tokens(s, Slash)).value
      ensures r.Err? ==> JoinSteps(Tokens(s, Slash)) == Err(r.error)
    {
      var rest := s;
      var token := Strtok(rest, Slash);
      while token.Some?
        invariant token == Strtok(rest, Slash)
        invariant Prepend(old(xpath), JoinSteps(Tokens(s, Slash))) == Prepend(xpath, JoinSteps(Tokens(rest, Slash)))
        decreases |rest|
      {
        var step := Step(token.value.0);
        if step.Err? {
          StepFails(old(xpath), s, xpath, rest);
          return Err(step.error);
        }
        StepSucceeds(old(xpath), s, xpath, rest);
        rest := token.value.1;
        token := Strtok(rest, Slash);
        var sep := if token.Some? then "/" else "";
        xpath := xpath + step.value + sep;
      }
      StepsDone(old(xpath), s, xpath, rest);
      return Ok(());
    }
  }

  /** One loop step of set_xpath: the first token's step moves into the accumulated text. */
  lemma JoinStepsCons(acc: string, t: string, more: seq<string>)
    ensures Step(t).Err? ==> Prepend(acc, JoinSteps([t] + more)) == Err(Step(t).error)
    ensures Step(t).Ok? ==>
      Prepend(acc, JoinSteps([t] + more)) ==
        Prepend(acc + Step(t).value + (if more != [] then "/" else ""), JoinSteps(more))
  {
    JoinStepsFirst(t, more);
    var js := JoinSteps([t] + more);
    match Step(t) {
      case Err(e) =>
        assert js == Err(e);
      case Ok(v) =>
        if more == [] {
          assert js == Ok(v);
          assert acc + v + "" == acc + v;
        } else {
          match JoinSteps(more) {
            case Err(e) =>
              assert js == Err(e);
            case Ok(w) =>
              assert js == Ok(v + "/" + w);
              JoinAt(acc, v, w);
          }
        }
    }
  }

  lemma JoinAt(acc: string, v: string, w: string)
    ensures acc + (v + "/" + w) == acc + v + "/" + w
  {
  }

  /** JoinSteps on a list given as its first token and the rest. */
  lemma JoinStepsFirst(t: string, more: seq<string>)
    ensures Step(t).Err? ==> JoinSteps([t] + more) == Err(Step(t).error)
    ensures Step(t).Ok? && more == [] ==> JoinSteps([t] + more) == Ok(Step(t).value)
    ensures Step(t).Ok? && more != [] && JoinSteps(more).Err? ==> JoinSteps([t] + more) == Err(JoinSteps(more).error)
    ensures Step(t).Ok? && more != [] && JoinSteps(more).Ok? ==>
      JoinSteps([t] + more) == Ok(Step(t).value + "/" + JoinSteps(more).value)
  {
    var tokens := [t] + more;
    assert tokens[0] == t && tokens[1..] == more;
  }

  lemma StepFails(start: string, s: string, acc: string, rest: string)
    requires Strtok(rest, Slash).Some? && Step(Strtok(rest, Slash).value.0).Err?
    requires Prepend(start, JoinSteps(Tokens(s, Slash))) == Prepend(acc, JoinSteps(Tokens(rest, Slash)))
    ensures JoinSteps(Tokens(s, Slash)) == Err(Step(Strtok(rest, Slash).value.0).error)
  {
    var (t, more) := Strtok(rest, Slash).value;
    assert Tokens(rest, Slash) == [t] + Tokens(more, Slash);
    JoinStepsCons(acc, t, Tokens(more, Slash));
  }

  lemma StepSucceeds(start: string, s: string, acc: string, rest: string)
    requires Strtok(rest, Slash).Some? && Step(Strtok(rest, Slash).value.0).Ok?
    requires Prepend(start, JoinSteps(Tokens(s, Slash))) == Prepend(acc, JoinSteps(Tokens(rest, Slash)))
    ensures var (t, more) := Strtok(rest, Slash).value;
      var sep := if Strtok(more, Slash).Some? then "/" else "";
      Prepend(start, JoinSteps(Tokens(s, Slash))) == Prepend(acc + Step(t).value + sep, JoinSteps(Tokens(more, Slash)))
  {
    var (t, more) := Strtok(rest, Slash).value;
    assert Tokens(rest, Slash) == [t] + Tokens(more, Slash);
    assert Strtok(more, Slash).Some? <==> Tokens(more, Slash) != [];
    JoinStepsCons(acc, t, Tokens(more, Slash));
  }

  lemma StepsDone(start: string, s: string, acc: string, rest: string)
    requires Strtok(rest, Slash).None?
    requires Prepend(start, JoinSteps(Tokens(s, Slash))) == Prepend(acc, JoinSteps(Tokens(rest, Slash)))
    ensures JoinSteps(Tokens(s, Slash)).Ok? && acc == start + JoinSteps(Tokens(s, Slash)).value
  {
    assert Tokens(rest, Slash) == [] && acc + [] == acc;
  }
}
