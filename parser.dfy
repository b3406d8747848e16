/**
 * parse_definition (src/definition.c:211-431): the line-oriented state machine that reads a
 * definition file into the plan. The static cursors of src/definition.c:65-69 are the fields
 * of DefinitionParser; ParserState is their value, and the functions below say what one line,
 * a list of lines and one file do to it. A file system is a map from path to lines.
 */
module Parser {
  import opened Wrappers
  import opened CStrings
  import opened Misc
  import opened Plan

  /** What a cleaned line is recognised as, tried in this order by prefix (CHECK_TOKEN). */
  datatype Directive = Include | OutputPakFile | AddFile | InputPakFile | MbinFile | Cd | Assignment

  /** Why parse_definition returned NULL. */
  datatype ParseError = CannotOpen(path: string) | OutOfOrder(directive: Directive)

  /** The value parse_definition returns: the list starting at paks[head], or NULL on an error path. */
  datatype Parsed = List(head: nat) | Null(error: ParseError)

  /**
   * The parser's static state. paks holds every output pak created so far in creation order;
   * the last is currentOutputPakFile. input and mbin index the current input pak of that pak
   * and the current MBIN of that input pak; modificationOpen says that currentModification is
   * set, and it is then always the last modification of the current MBIN.
   */
  datatype ParserState = ParserState(
    paks: seq<OutputPak>,
    input: Option<nat>,
    mbin: Option<nat>,
    modificationOpen: bool)

  datatype Outcome = Outcome(st: ParserState, result: Parsed)

  /** The static cursors before the first call: every one NULL. */
  const Initial := ParserState([], None, None, false)

  function Last<T>(s: seq<T>): T
    requires |s| > 0
  {
    s[|s| - 1]
  }

  /** The invariant every step keeps: cursors point at existing entries, every pak is well formed. */
  predicate Valid(st: ParserState) {
    && (forall k :: 0 <= k < |st.paks| ==> OutputPakOk(st.paks[k]))
    && (st.input.Some? ==> |st.paks| > 0 && st.input.value < |Last(st.paks).inputs|)
    && (st.mbin.Some? ==> st.input.Some? && st.mbin.value < |Last(st.paks).inputs[st.input.value].mbins|)
    && (st.modificationOpen ==>
          st.mbin.Some? && |Last(st.paks).inputs[st.input.value].mbins[st.mbin.value].modifications| > 0)
  }

  function CurrentPak(st: ParserState): OutputPak
    requires |st.paks| > 0
  {
    Last(st.paks)
  }

  function CurrentInput(st: ParserState): InputPak
    requires Valid(st) && st.input.Some?
  {
    CurrentPak(st).inputs[st.input.value]
  }

  function CurrentMbin(st: ParserState): MbinData
    requires Valid(st) && st.mbin.Some?
  {
    CurrentInput(st).mbins[st.mbin.value]
  }

  /** The list a result stands for: the paks from head on, or nothing for NULL. */
  function ListOf(o: Outcome): seq<OutputPak>
    requires o.result.List? ==> o.result.head <= |o.st.paks|
  {
    if o.result.List? then o.st.paks[o.result.head..] else []
  }

  // ---- reading a line ----

  /** The text before the first c, or all of s (C: *strchr(s, c) = '\0'). */
  function CutAt(s: string, c: char): (r: string)
    ensures c !in r && HasPrefix(s, r)
    ensures |r| < |s| ==> s[|r|] == c
  {
    match IndexOf(s, c)
    case None => s
    case Some(i) => s[..i]
  }

  /** A line as the parser sees it: up to its first NUL, cut at the first '#', then trimmed. */
  function CleanLine(raw: string): (r: string)
    ensures NUL !in r && '#' !in r && NoOuterSpace(r)
  {
    var cut := CutAt(CutAt(raw, NUL), '#');
    TrimNoOuterSpace(cut);
    TrimKeepsOut(cut, NUL);
    TrimKeepsOut(cut, '#');
    Trim(cut)
  }

  /** The word each directive line starts with. */
  function Keyword(d: Directive): string
    requires d != Assignment
  {
    match d
    case Include => "!include"
    case OutputPakFile => "!outputPakFile"
    case AddFile => "!addFile"
    case InputPakFile => "!inputPakFile"
    case MbinFile => "!mbinFile"
    case Cd => "cd"
  }

  /** A line is the directive whose word it starts with; a line starting with none is an assignment. */
  function Classify(line: string): (d: Directive)
    ensures d != Assignment ==> HasPrefix(line, Keyword(d))
    ensures d == Assignment <==> forall e: Directive :: e != Assignment ==> !HasPrefix(line, Keyword(e))
  {
    if HasPrefix(line, "!include") then Include
    else if HasPrefix(line, "!outputPakFile") then OutputPakFile
    else if HasPrefix(line, "!addFile") then AddFile
    else if HasPrefix(line, "!inputPakFile") then InputPakFile
    else if HasPrefix(line, "!mbinFile") then MbinFile
    else if HasPrefix(line, "cd") then Cd
    else Assignment
  }

  const Blanks: set<char> := {' ', '\t', '\r', '\n'}
  const LineEnds: set<char> := {'\r', '\n'}

  /**
   * A directive's argument: strtok(line, " \t\r\n") skips the directive word, strtok(NULL,
   * "\r\n") takes the rest up to a line end, and trim cleans it. None is the NULL token;
   * Some([]) is possible and is a present, empty argument.
   */
  function Argument(line: string): (r: Option<string>)
    ensures r.Some? ==> NoOuterSpace(r.value) && '\r' !in r.value && '\n' !in r.value
    ensures (forall i :: 0 <= i < |line| ==> line[i] in Blanks) ==> r.None?
  {
    match Strtok(line, Blanks)
    case None => None
    case Some((_, rest)) =>
      match Strtok(rest, LineEnds)
      case None => None
      case Some((arg, _)) =>
        TrimNoOuterSpace(arg);
        TrimKeepsOut(arg, '\r');
        TrimKeepsOut(arg, '\n');
        Some(Trim(arg))
  }

  /** An empty string stands for an absent side of an assignment. */
  function Present(s: string): (r: Option<string>)
    ensures r.None? <==> s == []
  {
    if s == [] then None else Some(s)
  }

  /** An assignment line split at its first '=', both sides trimmed. */
  function SplitAssignment(line: string): (nv: NameValue)
    ensures nv.name.Some? ==> nv.name.value != [] && NoOuterSpace(nv.name.value)
    ensures nv.value.Some? ==> nv.value.value != [] && NoOuterSpace(nv.value.value)
    ensures '=' !in line ==> nv.value.None?
  {
    match IndexOf(line, '=')
    case None =>
      TrimNoOuterSpace(line);
      NameValue(Present(Trim(line)), None)
    case Some(i) =>
      TrimNoOuterSpace(line[..i]);
      TrimNoOuterSpace(line[i + 1..]);
      NameValue(Present(Trim(line[..i])), Present(Trim(line[i + 1..])))
  }

  // ---- the effect of each directive ----

  function WithCurrentPak(st: ParserState, p: OutputPak): ParserState
    requires |st.paks| > 0
  {
    st.(paks := st.paks[|st.paks| - 1 := p])
  }

  /** !outputPakFile: a new, empty pak at the tail; every other cursor cleared. */
  function OpenOutputPak(st: ParserState, path: string): (r: ParserState)
    requires Valid(st)
    ensures Valid(r)
  {
    ParserState(st.paks + [OutputPak(path, [], 0, [], 0)], None, None, false)
  }

  /** !addFile: the file pushed at the front of the current pak's extra files. */
  function AddExtraFile(st: ParserState, path: string): (r: ParserState)
    requires Valid(st) && |st.paks| > 0
    ensures Valid(r)
  {
    var p := CurrentPak(st);
    WithCurrentPak(st, p.(extraFiles := [path] + p.extraFiles, extraFileCount := p.extraFileCount + 1))
  }

  /** !inputPakFile: the entry with this path reused, or a new one appended; MBIN cursors cleared. */
  function OpenInputPak(st: ParserState, path: string): (r: ParserState)
    requires Valid(st) && |st.paks| > 0
    ensures Valid(r)
  {
    var p := CurrentPak(st);
    match SearchInputPak(p.inputs, path)
    case Some(i) => st.(input := Some(i), mbin := None, modificationOpen := false)
    case None =>
      MbinTotalAppend(p.inputs, InputPak(path, [], 0));
      WithCurrentPak(st, p.(inputs := p.inputs + [InputPak(path, [], 0)]))
        .(input := Some(|p.inputs|), mbin := None, modificationOpen := false)
  }

  /**
   * !mbinFile: the entry with this name reused, resuming its last modification; or a new one
   * appended, with both MBIN counters incremented.
   */
  function OpenMbin(st: ParserState, name: string): (r: ParserState)
    requires Valid(st) && st.input.Some?
    ensures Valid(r)
  {
    var ip := CurrentInput(st);
    match SearchMbin(ip.mbins, name)
    case Some(j) => st.(mbin := Some(j), modificationOpen := |ip.mbins[j].modifications| > 0)
    case None =>
      var p := CurrentPak(st);
      var ip' := ip.(mbins := ip.mbins + [MbinData(name, [])], mbinCount := ip.mbinCount + 1);
      MbinTotalUpdate(p.inputs, st.input.value, ip');
      WithCurrentPak(st, p.(inputs := p.inputs[st.input.value := ip'], totalMbinCount := p.totalMbinCount + 1))
        .(mbin := Some(|ip.mbins|), modificationOpen := false)
  }

  /** The current MBIN replaced by one with the same name. */
  function WithCurrentMbin(st: ParserState, m: MbinData): (r: ParserState)
    requires Valid(st) && st.mbin.Some? && m.mbinFile == CurrentMbin(st).mbinFile
    requires st.modificationOpen ==> |m.modifications| > 0
    ensures Valid(r)
  {
    var p := CurrentPak(st);
    var ip := CurrentInput(st);
    var ip' := ip.(mbins := ip.mbins[st.mbin.value := m]);
    MbinTotalUpdate(p.inputs, st.input.value, ip');
    WithCurrentPak(st, p.(inputs := p.inputs[st.input.value := ip']))
  }

  /** cd: a new modification with the raw selector at the tail of the current MBIN, made current. */
  function OpenModification(st: ParserState, selector: string): (r: ParserState)
    requires Valid(st) && st.mbin.Some?
    ensures Valid(r)
  {
    var m := CurrentMbin(st);
    WithCurrentMbin(st, m.(modifications := m.modifications + [Modification(selector, [])]))
      .(modificationOpen := true)
  }

  /** An assignment: the pair at the tail of the current modification's values. */
  function AddValue(st: ParserState, nv: NameValue): (r: ParserState)
    requires Valid(st) && st.modificationOpen
    ensures Valid(r)
  {
    var m := CurrentMbin(st);
    var k := |m.modifications| - 1;
    var md := m.modifications[k];
    WithCurrentMbin(st, m.(modifications := m.modifications[k := md.(values := md.values + [nv])]))
  }

  // ---- lines and files ----

  /** Earlier output paks never change, and none is removed. */
  predicate Extends(before: seq<OutputPak>, after: seq<OutputPak>) {
    |before| <= |after| && forall k :: 0 <= k < |before| - 1 ==> after[k] == before[k]
  }

  /** What parse_definition does to the state and its list for one line read from the file. */
  function ParseLine(fs: map<string, seq<string>>, depth: nat, st: ParserState, head: nat, raw: string): (o: Outcome)
    requires Valid(st) && head <= |st.paks|
    ensures Valid(o.st) && Extends(st.paks, o.st.paks)
    ensures o.result.List? ==> o.result.head <= |o.st.paks|
    decreases depth, 0, 1
  {
    var line := CleanLine(raw);
    if line == [] then Outcome(st, List(head))
    else if Classify(line) == Include then IncludeLine(fs, depth, st, head, line)
    else ApplyDirective(st, head, line)
  }

  /**
   * !include: the named file is parsed with the caller's list and the shared cursors, and its
   * result becomes the caller's list, which is NULL when that parse returned NULL. The caller
   * goes on either way. Below depth 0 the file is treated as one that cannot be opened.
   */
  function IncludeLine(fs: map<string, seq<string>>, depth: nat, st: ParserState, head: nat, line: string): (o: Outcome)
    requires Valid(st) && head <= |st.paks|
    ensures Valid(o.st) && Extends(st.paks, o.st.paks)
    ensures o.result.List? && o.result.head <= |o.st.paks|
    decreases depth, 0, 0
  {
    match Argument(line)
    case None => Outcome(st, List(head))
    case Some(path) =>
      if depth == 0 then Outcome(st, List(|st.paks|))
      else
        var inner := ParseFile(fs, depth - 1, path, st, head);
        Outcome(inner.st, List(if inner.result.List? then inner.result.head else |inner.st.paks|))
  }

  /** One unfolding of IncludeLine for an argument below a positive depth, whose parse is inner. */
  lemma IncludeLineOpens(fs: map<string, seq<string>>, depth: nat, st: ParserState, head: nat, line: string, path: string, inner: Outcome)
    requires Valid(st) && head <= |st.paks| && Argument(line) == Some(path) && depth > 0
    requires inner == ParseFile(fs, depth - 1, path, st, head)
    ensures IncludeLine(fs, depth, st, head, line)
            == Outcome(inner.st, List(if inner.result.List? then inner.result.head else |inner.st.paks|))
  {
    assert Argument(line).value == path;
  }

  /**
   * A non-empty line that is not an !include: the scope check (which makes parse_definition
   * return NULL) comes before the argument is looked at; a missing argument does nothing.
   */
  function ApplyDirective(st: ParserState, head: nat, line: string): (o: Outcome)
    requires Valid(st) && head <= |st.paks| && Classify(line) != Include
    ensures Valid(o.st) && Extends(st.paks, o.st.paks)
    ensures o.result.List? ==> o.result.head == head
  {
    match Classify(line)
    case OutputPakFile =>
      (match Argument(line)
       case None => Outcome(st, List(head))
       case Some(path) => Outcome(OpenOutputPak(st, path), List(head)))
    case AddFile =>
      if |st.paks| == 0 then Outcome(st, Null(OutOfOrder(AddFile)))
      else (match Argument(line)
       case None => Outcome(st, List(head))
       case Some(path) => Outcome(AddExtraFile(st, path), List(head)))
    case InputPakFile =>
      if |st.paks| == 0 then Outcome(st, Null(OutOfOrder(InputPakFile)))
      else (match Argument(line)
       case None => Outcome(st, List(head))
       case Some(path) => Outcome(OpenInputPak(st, path), List(head)))
    case MbinFile =>
      if st.input.None? then Outcome(st, Null(OutOfOrder(MbinFile)))
      else (match Argument(line)
       case None => Outcome(st, List(head))
       case Some(name) => Outcome(OpenMbin(st, name), List(head)))
    case Cd =>
      if st.mbin.None? then Outcome(st, Null(OutOfOrder(Cd)))
      else (match Argument(line)
       case None => Outcome(st, List(head))
       case Some(selector) => Outcome(OpenModification(st, selector), List(head)))
    case Assignment =>
      if !st.modificationOpen then Outcome(st, Null(OutOfOrder(Assignment)))
      else
        var nv := SplitAssignment(line);
        if nv.name.None? && nv.value.None? then Outcome(st, List(head))
        else Outcome(AddValue(st, nv), List(head))
  }

  /** Lines in order until the first one that makes parse_definition return NULL. */
  function ParseLines(fs: map<string, seq<string>>, depth: nat, lines: seq<string>, st: ParserState, head: nat): (o: Outcome)
    requires Valid(st) && head <= |st.paks|
    ensures Valid(o.st) && Extends(st.paks, o.st.paks)
    ensures o.result.List? ==> o.result.head <= |o.st.paks|
    decreases depth, 0, |lines| + 1
  {
    if lines == [] then Outcome(st, List(head))
    else
      var o := ParseLine(fs, depth, st, head, lines[0]);
      if o.result.Null? then o
      else ParseLines(fs, depth, lines[1..], o.st, o.result.head)
  }

  /**
   * parse_definition(path, list) with the list starting at paks[head]; depth bounds how many
   * !include levels may still be opened below this file.
   */
  function ParseFile(fs: map<string, seq<string>>, depth: nat, path: string, st: ParserState, head: nat): (o: Outcome)
    requires Valid(st) && head <= |st.paks|
    ensures Valid(o.st) && Extends(st.paks, o.st.paks)
    ensures o.result.List? ==> o.result.head <= |o.st.paks|
    decreases depth, 1, 0
  {
    if path !in fs then Outcome(st, Null(CannotOpen(path)))
    else ParseLines(fs, depth, fs[path], st, head)
  }

  /** The parser with its static cursors as fields. */
  class DefinitionParser {
    var paks: seq<OutputPak>
    var currentInput: Option<nat>
    var currentMbin: Option<nat>
    var modificationOpen: bool

    function State(): ParserState
      reads this
    {
      ParserState(paks, currentInput, currentMbin, modificationOpen)
    }

    constructor ()
      ensures State() == Initial
    {
      paks := [];
      currentInput := None;
      currentMbin := None;
      modificationOpen := false;
    }

    /** parse_definition(filename, list): reads the file line by line. */
    method ParseDefinition(fs: map<string, seq<string>>, depth: nat, filename: string, list: nat) returns (r: Parsed)
      requires Valid(State()) && list <= |paks|
      modifies this
      ensures Outcome(State(), r) == ParseFile(fs, depth, filename, old(State()), list)
      decreases depth, 1, 0
    {
      if filename !in fs {
        return Null(CannotOpen(filename));
      }
      var lines := fs[filename];
      var head: nat := list;
      var i := 0;
      while i < |lines|
        invariant i <= |lines| && Valid(State()) && head <= |paks|
        invariant ParseLines(fs, depth, lines[i..], State(), head) == ParseLines(fs, depth, lines, old(State()), list)
      {
        assert lines[i..][0] == lines[i] && lines[i..][1..] == lines[i + 1..];
        r := ProcessLine(fs, depth, lines[i], head);
        if r.Null? {
          return;
        }
        head := r.head;
        i := i + 1;
      }
      return List(head);
    }

    /** The body of the read loop for one line. */
    method ProcessLine(fs: map<string, seq<string>>, depth: nat, raw: string, head: nat) returns (r: Parsed)
      requires Valid(State()) && head <= |paks|
      modifies this
      ensures Outcome(State(), r) == ParseLine(fs, depth, old(State()), head, raw)
      decreases depth, 0, 1
    {
      var line := CleanLine(raw);
      if line == [] {
        return List(head);
      }
      if Classify(line) == Include {
        r := IncludeFile(fs, depth, line, head);
      } else {
        r := Apply(line, head);
      }
    }

    /** The !include branch, as IncludeLine says. */
    method IncludeFile(fs: map<string, seq<string>>, depth: nat, line: string, head: nat) returns (r: Parsed)
      requires Valid(State()) && head <= |paks|
      modifies this
      ensures Outcome(State(), r) == IncludeLine(fs, depth, old(State()), head, line)
      decreases depth, 0, 0
    {
      var arg := Argument(line);
      if arg.None? {
        return List(head);
      }
      if depth == 0 {
        return List(|paks|);
      }
      var path := arg.value;
      ghost var st0 := State();
      var inner := ParseDefinition(fs, depth - 1, path, head);
      assert Valid(st0) && head <= |st0.paks|;
      assert Argument(line) == Some(path);
      assert Outcome(State(), inner) == ParseFile(fs, depth - 1, path, st0, head);
      IncludeLineOpens(fs, depth, st0, head, line, path, Outcome(State(), inner));
      r := List(if inner.List? then inner.head else |paks|);
    }

    /** The directives other than !include, as ApplyDirective says. */
    method Apply(line: string, head: nat) returns (r: Parsed)
      requires Valid(State()) && head <= |paks| && Classify(line) != Include
      modifies this
      ensures Outcome(State(), r) == ApplyDirective(old(State()), head, line)
    {
      var arg := Argument(line);
      match Classify(line)
      case OutputPakFile =>
        if arg.Some? {
          NewOutputPak(arg.value);
        }
        return List(head);
      case AddFile =>
        if |paks| == 0 {
          return Null(OutOfOrder(AddFile));
        }
        if arg.Some? {
          PushExtraFile(arg.value);
        }
        return List(head);
      case InputPakFile =>
        if |paks| == 0 {
          return Null(OutOfOrder(InputPakFile));
        }
        if arg.Some? {
          SelectInputPak(arg.value);
        }
        return List(head);
      case MbinFile =>
        if currentInput.None? {
          return Null(OutOfOrder(MbinFile));
        }
        if arg.Some? {
          SelectMbin(arg.value);
        }
        return List(head);
      case Cd =>
        if currentMbin.None? {
          return Null(OutOfOrder(Cd));
        }
        if arg.Some? {
          PushModification(arg.value);
        }
        return List(head);
      case Assignment =>
        if !modificationOpen {
          return Null(OutOfOrder(Assignment));
        }
        var nv := SplitAssignment(line);
        if nv.name.Some? || nv.value.Some? {
          PushValue(nv);
        }
        return List(head);
    }

    method NewOutputPak(path: string)
      requires Valid(State())
      modifies this
      ensures State() == OpenOutputPak(old(State()), path)
    {
      paks := paks + [OutputPak(path, [], 0, [], 0)];
      currentInput, currentMbin, modificationOpen := None, None, false;
    }

    method PushExtraFile(path: string)
      requires Valid(State()) && |paks| > 0
      modifies this
      ensures State() == AddExtraFile(old(State()), path)
    {
      var p := paks[|paks| - 1];
      paks := paks[|paks| - 1 := p.(extraFiles := [path] + p.extraFiles, extraFileCount := p.extraFileCount + 1)];
    }

    method SelectInputPak(path: string)
      requires Valid(State()) && |paks| > 0
      modifies this
      ensures State() == OpenInputPak(old(State()), path)
    {
      var p := paks[|paks| - 1];
      var found := SearchInputPak(p.inputs, path);
      if found.Some? {
        currentInput := found;
      } else {
        paks := paks[|paks| - 1 := p.(inputs := p.inputs + [InputPak(path, [], 0)])];
        currentInput := Some(|p.inputs|);
      }
      currentMbin, modificationOpen := None, false;
    }

    method SelectMbin(name: string)
      requires Valid(State()) && currentInput.Some?
      modifies this
      ensures State() == OpenMbin(old(State()), name)
    {
      var p := paks[|paks| - 1];
      var ip := p.inputs[currentInput.value];
      var found := SearchMbin(ip.mbins, name);
      if found.Some? {
        currentMbin := found;
        modificationOpen := |ip.mbins[found.value].modifications| > 0;
      } else {
        var ip' := ip.(mbins := ip.mbins + [MbinData(name, [])], mbinCount := ip.mbinCount + 1);
        paks := paks[|paks| - 1 := p.(inputs := p.inputs[currentInput.value := ip'], totalMbinCount := p.totalMbinCount + 1)];
        currentMbin := Some(|ip.mbins|);
        modificationOpen := false;
      }
    }

    method PushModification(selector: string)
      requires Valid(State()) && currentMbin.Some?
      modifies this
      ensures State() == OpenModification(old(State()), selector)
    {
      var p := paks[|paks| - 1];
      var ip := p.inputs[currentInput.value];
      var m := ip.mbins[currentMbin.value];
      var m' := m.(modifications := m.modifications + [Modification(selector, [])]);
      var ip' := ip.(mbins := ip.mbins[currentMbin.value := m']);
      paks := paks[|paks| - 1 := p.(inputs := p.inputs[currentInput.value := ip'])];
      modificationOpen := true;
    }

    method PushValue(nv: NameValue)
      requires Valid(State()) && modificationOpen
      modifies this
      ensures State() == AddValue(old(State()), nv)
    {
      var p := paks[|paks| - 1];
      var ip := p.inputs[currentInput.value];
      var m := ip.mbins[currentMbin.value];
      var k := |m.modifications| - 1;
      var md := m.modifications[k];
      var m' := m.(modifications := m.modifications[k := md.(values := md.values + [nv])]);
      var ip' := ip.(mbins := ip.mbins[currentMbin.value := m']);
      paks := paks[|paks| - 1 := p.(inputs := p.inputs[currentInput.value := ip'])];
    }
  }

  /** main: parse_definition(file, NULL) on fresh static state. */
  function ParseDefinitionFile(fs: map<string, seq<string>>, depth: nat, path: string): (o: Outcome)
    ensures Valid(o.st)
  {
    ParseFile(fs, depth, path, Initial, 0)
  }
}
