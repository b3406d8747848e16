/**
 * The rules parse_definition follows, stated over the ParseLine / ParseLines / ParseFile model.
 */
module ParserRules {
  import opened Wrappers
  import opened CStrings
  import opened Misc
  import opened Plan
  import opened Parser

  /** Whether the scope a directive needs is open (src/definition.c:265, 289, 324, 362, 391). */
  predicate ScopeOpen(st: ParserState, d: Directive) {
    match d
    case Include => true
    case OutputPakFile => true
    case AddFile => |st.paks| > 0
    case InputPakFile => |st.paks| > 0
    case MbinFile => st.input.Some?
    case Cd => st.mbin.Some?
    case Assignment => st.modificationOpen
  }

  /** Some input pak of the list has exactly this path. */
  predicate HasInput(inputs: seq<InputPak>, path: string) {
    exists j :: 0 <= j < |inputs| && inputs[j].inputPakFile == path
  }

  /** Some MBIN of the list has exactly this name. */
  predicate HasMbin(mbins: seq<MbinData>, name: string) {
    exists j :: 0 <= j < |mbins| && mbins[j].mbinFile == name
  }

  // ---- reading lines ----

  /** What the parser looks at has no NUL, no '#', and no outer whitespace. */
  lemma CleanLineShape(raw: string)
    ensures NUL !in CleanLine(raw) && '#' !in CleanLine(raw) && NoOuterSpace(CleanLine(raw))
    ensures NUL !in raw ==> CleanLine(raw) == Trim(CutAt(raw, '#'))
  {
    var cut := CutAt(CutAt(raw, NUL), '#');
    TrimSplits(cut);
    TrimNoOuterSpace(cut);
    assert Trim(cut) == cut[Leading(cut)..Leading(cut) + |Trim(cut)|];
  }

  /** A line that is blank, or blank up to its '#', is skipped. */
  lemma {:induction false} BlankLineSkipped(fs: map<string, seq<string>>, depth: nat, st: ParserState, head: nat, raw: string)
    requires Valid(st) && head <= |st.paks|
    requires NUL !in raw && AllSpace(CutAt(raw, '#'))
    ensures ParseLine(fs, depth, st, head, raw) == Outcome(st, List(head))
  {
    CleanLineShape(raw);
    TrimEmptyIffAllSpace(CutAt(raw, '#'));
  }

  /** Directives are recognised by prefix: anything starting with "cd" is a cd line. */
  lemma CdByPrefix(line: string)
    requires HasPrefix(line, "cd")
    ensures Classify(line) == Cd
  {
    assert line[0] == 'c';
  }

  /** A directive word, one blank, and a clean argument give back that argument. */
  lemma {:induction false} ArgumentAfterWord(word: string, arg: string)
    requires |word| > 0 && forall i :: 0 <= i < |word| ==> word[i] !in Blanks
    requires |arg| > 0 && NoOuterSpace(arg) && forall i :: 0 <= i < |arg| ==> arg[i] !in LineEnds
    ensures Argument(word + " " + arg) == Some(arg)
  {
    var line := word + " " + arg;
    assert !HasDelimiter(word, Blanks);
    TokenEndSplit(word, ' ', arg, Blanks);
    assert line == word + [' '] + arg;
    assert Strtok(line, Blanks) == Some((word, arg));
    var t := TokenEnd(arg, LineEnds);
    assert t.0 == arg;
    assert Strtok(arg, LineEnds) == Some((arg, []));
    TrimUnique([], arg, []);
    assert [] + arg + [] == arg;
  }

  /** A directive whose scope is open but which has no argument changes nothing. */
  lemma NoArgumentNoEffect(fs: map<string, seq<string>>, depth: nat, st: ParserState, head: nat, raw: string)
    requires Valid(st) && head <= |st.paks|
    requires CleanLine(raw) != [] && Classify(CleanLine(raw)) != Assignment
    requires ScopeOpen(st, Classify(CleanLine(raw))) && Argument(CleanLine(raw)).None?
    ensures ParseLine(fs, depth, st, head, raw) == Outcome(st, List(head))
  {
  }

  /** A non-blank line that is not an !include is handled by ApplyDirective. */
  lemma DirectiveLine(fs: map<string, seq<string>>, depth: nat, st: ParserState, head: nat, raw: string)
    requires Valid(st) && head <= |st.paks|
    requires CleanLine(raw) != [] && Classify(CleanLine(raw)) != Include
    ensures ParseLine(fs, depth, st, head, raw) == ApplyDirective(st, head, CleanLine(raw))
  {
  }

  /** ApplyDirective returns NULL exactly when the directive's scope is closed, and then changes nothing. */
  lemma ScopeCheck(st: ParserState, head: nat, line: string)
    requires Valid(st) && head <= |st.paks| && Classify(line) != Include
    ensures ApplyDirective(st, head, line).result.Null? <==> !ScopeOpen(st, Classify(line))
    ensures ApplyDirective(st, head, line).result.Null? ==>
      ApplyDirective(st, head, line) == Outcome(st, Null(OutOfOrder(Classify(line))))
  {
  }

  /**
   * A line makes parse_definition return NULL exactly when it needs a scope that is not open;
   * the error names the directive and the state is left as it was.
   */
  lemma OrderingError(fs: map<string, seq<string>>, depth: nat, st: ParserState, head: nat, raw: string)
    requires Valid(st) && head <= |st.paks|
    ensures ParseLine(fs, depth, st, head, raw).result.Null? <==>
      CleanLine(raw) != [] && !ScopeOpen(st, Classify(CleanLine(raw)))
    ensures ParseLine(fs, depth, st, head, raw).result.Null? ==>
      ParseLine(fs, depth, st, head, raw) == Outcome(st, Null(OutOfOrder(Classify(CleanLine(raw)))))
  {
    var line := CleanLine(raw);
    if line != [] && Classify(line) != Include {
      DirectiveLine(fs, depth, st, head, raw);
      ScopeCheck(st, head, line);
    }
  }

  /** Parsing a + b is parsing a, then b from where a left off, unless a returned NULL. */
  lemma {:induction false} ParseLinesAppend(fs: map<string, seq<string>>, depth: nat, a: seq<string>, b: seq<string>, st: ParserState, head: nat)
    requires Valid(st) && head <= |st.paks|
    ensures var o := ParseLines(fs, depth, a, st, head);
      ParseLines(fs, depth, a + b, st, head) ==
        if o.result.Null? then o else ParseLines(fs, depth, b, o.st, o.result.head)
    decreases |a|
  {
    if a == [] {
      assert a + b == b;
    } else {
      assert (a + b)[0] == a[0] && (a + b)[1..] == a[1..] + b;
      var o := ParseLine(fs, depth, st, head, a[0]);
      if o.result.List? {
        ParseLinesAppend(fs, depth, a[1..], b, o.st, o.result.head);
      }
    }
  }

  /** After a line that returns NULL, no later line of the file is looked at. */
  lemma AbortSkipsRest(fs: map<string, seq<string>>, depth: nat, a: seq<string>, raw: string, b: seq<string>, st: ParserState, head: nat)
    requires Valid(st) && head <= |st.paks|
    requires var o := ParseLines(fs, depth, a, st, head);
      o.result.List? && ParseLine(fs, depth, o.st, o.result.head, raw).result.Null?
    ensures var o := ParseLines(fs, depth, a, st, head);
      ParseLines(fs, depth, a + [raw] + b, st, head) == ParseLine(fs, depth, o.st, o.result.head, raw)
  {
    ParseLinesAppend(fs, depth, a, [raw] + b, st, head);
    assert a + [raw] + b == a + ([raw] + b);
  }

  // ---- the directives ----

  /** !outputPakFile P: one new empty pak named P at the tail of the list; cursors cleared. */
  lemma OutputPakLine(fs: map<string, seq<string>>, depth: nat, st: ParserState, head: nat, raw: string, path: string)
    requires Valid(st) && head <= |st.paks|
    requires Classify(CleanLine(raw)) == OutputPakFile && Argument(CleanLine(raw)) == Some(path)
    ensures var o := ParseLine(fs, depth, st, head, raw);
      && o.result == List(head)
      && o.st.paks == st.paks + [OutputPak(path, [], 0, [], 0)]
      && ListOf(o) == st.paks[head..] + [OutputPak(path, [], 0, [], 0)]
      && o.st.input.None? && o.st.mbin.None? && !o.st.modificationOpen
  {
    OutputPakOutcome(fs, depth, st, head, raw, path);
    OpenOutputPakEffect(st, head, path);
  }

  /** The state change of !outputPakFile, on its own. */
  lemma OpenOutputPakEffect(st: ParserState, head: nat, path: string)
    requires Valid(st) && head <= |st.paks|
    ensures var r := OpenOutputPak(st, path);
      && r.paks == st.paks + [OutputPak(path, [], 0, [], 0)]
      && r.paks[head..] == st.paks[head..] + [OutputPak(path, [], 0, [], 0)]
      && r.input.None? && r.mbin.None? && !r.modificationOpen
  {
    var pak := OutputPak(path, [], 0, [], 0);
    assert (st.paks + [pak])[head..] == st.paks[head..] + [pak];
  }

  lemma OutputPakOutcome(fs: map<string, seq<string>>, depth: nat, st: ParserState, head: nat, raw: string, path: string)
    requires Valid(st) && head <= |st.paks|
    requires Classify(CleanLine(raw)) == OutputPakFile && Argument(CleanLine(raw)) == Some(path)
    ensures ParseLine(fs, depth, st, head, raw) == Outcome(OpenOutputPak(st, path), List(head))
  {
    assert CleanLine(raw) != [];
    DirectiveLine(fs, depth, st, head, raw);
  }

  /** !addFile F: F in front of the current pak's extra files, and the count grows by one. */
  lemma AddFileLine(fs: map<string, seq<string>>, depth: nat, st: ParserState, head: nat, raw: string, file: string)
    requires Valid(st) && head <= |st.paks| && |st.paks| > 0
    requires Classify(CleanLine(raw)) == AddFile && Argument(CleanLine(raw)) == Some(file)
    ensures var o := ParseLine(fs, depth, st, head, raw);
      var p := CurrentPak(st);
      && o.result == List(head)
      && o.st == st.(paks := st.paks[|st.paks| - 1 := p.(extraFiles := [file] + p.extraFiles, extraFileCount := p.extraFileCount + 1)])
      && |o.st.paks| == |st.paks| && Extends(st.paks, o.st.paks)
      && CurrentPak(o.st).extraFiles == [file] + p.extraFiles
      && CurrentPak(o.st).extraFileCount == p.extraFileCount + 1 == |CurrentPak(o.st).extraFiles|
  {
    assert CleanLine(raw) != [];
    DirectiveLine(fs, depth, st, head, raw);
    assert ParseLine(fs, depth, st, head, raw) == Outcome(AddExtraFile(st, file), List(head));
  }

  /**
   * !inputPakFile P: the current pak's entry for P is reused when there is one, and otherwise
   * exactly one entry is appended; either way P is then current, uniquely, and the MBIN and
   * modification cursors are cleared.
   */
  lemma InputPakLine(fs: map<string, seq<string>>, depth: nat, st: ParserState, head: nat, raw: string, path: string)
    requires Valid(st) && head <= |st.paks| && |st.paks| > 0
    requires Classify(CleanLine(raw)) == InputPakFile && Argument(CleanLine(raw)) == Some(path)
    ensures var o := ParseLine(fs, depth, st, head, raw);
      var before := CurrentPak(st).inputs;
      var after := CurrentPak(o.st).inputs;
      && o.result == List(head)
      && |o.st.paks| == |st.paks| && Extends(st.paks, o.st.paks)
      && (HasInput(before, path) ==> o.st.paks == st.paks)
      && (!HasInput(before, path) ==>
            o.st.paks == st.paks[|st.paks| - 1 := CurrentPak(st).(inputs := before + [InputPak(path, [], 0)])])
      && (HasInput(before, path) ==> after == before)
      && (!HasInput(before, path) ==> after == before + [InputPak(path, [], 0)])
      && o.st.input.Some? && CurrentInput(o.st).inputPakFile == path
      && (forall j :: 0 <= j < |after| && after[j].inputPakFile == path ==> j == o.st.input.value)
      && o.st.mbin.None? && !o.st.modificationOpen
      && CurrentPak(o.st).totalMbinCount == CurrentPak(st).totalMbinCount
      && CurrentPak(o.st).extraFiles == CurrentPak(st).extraFiles
  {
    var o := ParseLine(fs, depth, st, head, raw);
    assert o.st == OpenInputPak(st, path);
    OpenInputPakEffect(st, path);
  }

  /** The state change of !inputPakFile, on its own. */
  lemma OpenInputPakEffect(st: ParserState, path: string)
    requires Valid(st) && |st.paks| > 0
    ensures var r := OpenInputPak(st, path);
      var before := CurrentPak(st).inputs;
      var after := CurrentPak(r).inputs;
      && |r.paks| == |st.paks| && Extends(st.paks, r.paks)
      && (HasInput(before, path) ==> r.paks == st.paks)
      && (!HasInput(before, path) ==>
            r.paks == st.paks[|st.paks| - 1 := CurrentPak(st).(inputs := before + [InputPak(path, [], 0)])])
      && (HasInput(before, path) ==> after == before)
      && (!HasInput(before, path) ==> after == before + [InputPak(path, [], 0)])
      && r.input.Some? && CurrentInput(r).inputPakFile == path
      && (forall j :: 0 <= j < |after| && after[j].inputPakFile == path ==> j == r.input.value)
      && r.mbin.None? && !r.modificationOpen
      && CurrentPak(r).totalMbinCount == CurrentPak(st).totalMbinCount
      && CurrentPak(r).extraFiles == CurrentPak(st).extraFiles
  {
  }

  /**
   * !mbinFile M: the current input pak's entry for M is reused when there is one, resuming its
   * last modification and changing no counter; otherwise it is appended and both mbinCount and
   * totalMbinCount grow by exactly one.
   */
  lemma MbinLine(fs: map<string, seq<string>>, depth: nat, st: ParserState, head: nat, raw: string, name: string)
    requires Valid(st) && head <= |st.paks| && st.input.Some?
    requires Classify(CleanLine(raw)) == MbinFile && Argument(CleanLine(raw)) == Some(name)
    ensures var o := ParseLine(fs, depth, st, head, raw);
      var p := CurrentPak(st);
      var before := CurrentInput(st);
      && o.result == List(head)
      && |o.st.paks| == |st.paks| && Extends(st.paks, o.st.paks)
      && o.st.input == st.input && o.st.mbin.Some?
      && CurrentMbin(o.st).mbinFile == name
      && (HasMbin(before.mbins, name) ==>
            && o.st.paks == st.paks
            && CurrentInput(o.st) == before
            && CurrentPak(o.st) == CurrentPak(st)
            && o.st.modificationOpen == (CurrentMbin(o.st).modifications != []))
      && (!HasMbin(before.mbins, name) ==>
            && o.st.paks == st.paks[|st.paks| - 1 := p.(
                 inputs := p.inputs[st.input.value := before.(mbins := before.mbins + [MbinData(name, [])], mbinCount := before.mbinCount + 1)],
                 totalMbinCount := p.totalMbinCount + 1)]
            && o.st.mbin == Some(|before.mbins|)
            && CurrentInput(o.st).mbins == before.mbins + [MbinData(name, [])]
            && CurrentInput(o.st).mbinCount == before.mbinCount + 1
            && CurrentPak(o.st).totalMbinCount == CurrentPak(st).totalMbinCount + 1
            && !o.st.modificationOpen)
  {
    assert CleanLine(raw) != [];
    DirectiveLine(fs, depth, st, head, raw);
    assert ParseLine(fs, depth, st, head, raw) == Outcome(OpenMbin(st, name), List(head));
    OpenMbinEffect(st, name);
  }

  /** The state change of !mbinFile, on its own. */
  lemma OpenMbinEffect(st: ParserState, name: string)
    requires Valid(st) && st.input.Some?
    ensures var r := OpenMbin(st, name);
      var p := CurrentPak(st);
      var before := CurrentInput(st);
      && |r.paks| == |st.paks| && Extends(st.paks, r.paks)
      && r.input == st.input && r.mbin.Some?
      && CurrentMbin(r).mbinFile == name
      && (HasMbin(before.mbins, name) ==>
            && r.paks == st.paks
            && CurrentInput(r) == before
            && CurrentPak(r) == CurrentPak(st)
            && r.modificationOpen == (CurrentMbin(r).modifications != []))
      && (!HasMbin(before.mbins, name) ==>
            && r.paks == st.paks[|st.paks| - 1 := p.(
                 inputs := p.inputs[st.input.value := before.(mbins := before.mbins + [MbinData(name, [])], mbinCount := before.mbinCount + 1)],
                 totalMbinCount := p.totalMbinCount + 1)]
            && r.mbin == Some(|before.mbins|)
            && CurrentInput(r).mbins == before.mbins + [MbinData(name, [])]
            && CurrentInput(r).mbinCount == before.mbinCount + 1
            && CurrentPak(r).totalMbinCount == CurrentPak(st).totalMbinCount + 1
            && !r.modificationOpen)
  {
  }

  /** cd S: one modification holding the raw S at the tail of the current MBIN, made current. */
  lemma CdLine(fs: map<string, seq<string>>, depth: nat, st: ParserState, head: nat, raw: string, selector: string)
    requires Valid(st) && head <= |st.paks| && st.mbin.Some?
    requires Classify(CleanLine(raw)) == Cd && Argument(CleanLine(raw)) == Some(selector)
    ensures var o := ParseLine(fs, depth, st, head, raw);
      var p := CurrentPak(st);
      var ip := CurrentInput(st);
      var m := CurrentMbin(st);
      var m' := m.(modifications := m.modifications + [Modification(selector, [])]);
      && o.st == st.(paks := st.paks[|st.paks| - 1 := p.(inputs := p.inputs[st.input.value := ip.(mbins := ip.mbins[st.mbin.value := m'])])],
                  modificationOpen := true)
      && o.result == List(head)
      && o.st.input == st.input && o.st.mbin == st.mbin && o.st.modificationOpen
      && CurrentMbin(o.st).mbinFile == CurrentMbin(st).mbinFile
      && CurrentMbin(o.st).modifications == CurrentMbin(st).modifications + [Modification(selector, [])]
      && |CurrentInput(o.st).mbins| == |CurrentInput(st).mbins|
      && (forall j :: 0 <= j < |CurrentInput(st).mbins| && j != st.mbin.value ==>
            CurrentInput(o.st).mbins[j] == CurrentInput(st).mbins[j])
  {
    assert CleanLine(raw) != [];
    DirectiveLine(fs, depth, st, head, raw);
    assert ParseLine(fs, depth, st, head, raw) == Outcome(OpenModification(st, selector), List(head));
    OpenModificationEffect(st, selector);
  }

  /** The state change of cd, on its own. */
  lemma OpenModificationEffect(st: ParserState, selector: string)
    requires Valid(st) && st.mbin.Some?
    ensures var r := OpenModification(st, selector);
      var p := CurrentPak(st);
      var ip := CurrentInput(st);
      var m := CurrentMbin(st);
      var m' := m.(modifications := m.modifications + [Modification(selector, [])]);
      && r == st.(paks := st.paks[|st.paks| - 1 := p.(inputs := p.inputs[st.input.value := ip.(mbins := ip.mbins[st.mbin.value := m'])])],
                  modificationOpen := true)
      && r.input == st.input && r.mbin == st.mbin && r.modificationOpen
      && CurrentMbin(r).mbinFile == CurrentMbin(st).mbinFile
      && CurrentMbin(r).modifications == CurrentMbin(st).modifications + [Modification(selector, [])]
      && |CurrentInput(r).mbins| == |CurrentInput(st).mbins|
      && (forall j :: 0 <= j < |CurrentInput(st).mbins| && j != st.mbin.value ==>
            CurrentInput(r).mbins[j] == CurrentInput(st).mbins[j])
  {
  }

  /**
   * An assignment line inside a cd block: the pair split at the first '=' is appended to the
   * current modification's values, unless both sides are empty, when the line is dropped.
   */
  lemma AssignmentLine(fs: map<string, seq<string>>, depth: nat, st: ParserState, head: nat, raw: string)
    requires Valid(st) && head <= |st.paks| && st.modificationOpen
    requires CleanLine(raw) != [] && Classify(CleanLine(raw)) == Assignment
    ensures var o := ParseLine(fs, depth, st, head, raw);
      var nv := SplitAssignment(CleanLine(raw));
      var mods := CurrentMbin(st).modifications;
      && o.result == List(head)
      && (nv.name.None? && nv.value.None? ==> o.st == st)
      && (nv.name.Some? || nv.value.Some? ==>
            && o.st == WithValue(st, nv)
            && o.st.input == st.input && o.st.mbin == st.mbin && o.st.modificationOpen
            && |CurrentMbin(o.st).modifications| == |mods|
            && Last(CurrentMbin(o.st).modifications).xpath == Last(mods).xpath
            && Last(CurrentMbin(o.st).modifications).values == Last(mods).values + [nv]
            && CurrentMbin(o.st).modifications[..|mods| - 1] == mods[..|mods| - 1])
  {
    DirectiveLine(fs, depth, st, head, raw);
    var nv := SplitAssignment(CleanLine(raw));
    if nv.name.Some? || nv.value.Some? {
      assert ParseLine(fs, depth, st, head, raw) == Outcome(AddValue(st, nv), List(head));
      AddValueEffect(st, nv);
    }
  }

  /**
   * The whole state after an assignment: the cursors as they were, and the pair at the tail of
   * the values of the current MBIN's last modification; every other pak, input pak, MBIN and
   * modification as it was.
   */
  function WithValue(st: ParserState, nv: NameValue): ParserState
    requires Valid(st) && st.modificationOpen
  {
    var p := CurrentPak(st);
    var ip := CurrentInput(st);
    var m := CurrentMbin(st);
    var k := |m.modifications| - 1;
    var md := m.modifications[k];
    var m' := m.(modifications := m.modifications[k := md.(values := md.values + [nv])]);
    st.(paks := st.paks[|st.paks| - 1 := p.(inputs := p.inputs[st.input.value := ip.(mbins := ip.mbins[st.mbin.value := m'])])])
  }

  /** The state change of an assignment, on its own. */
  lemma AddValueEffect(st: ParserState, nv: NameValue)
    requires Valid(st) && st.modificationOpen
    ensures var r := AddValue(st, nv);
      var mods := CurrentMbin(st).modifications;
      && r == WithValue(st, nv)
      && r.input == st.input && r.mbin == st.mbin && r.modificationOpen
      && |CurrentMbin(r).modifications| == |mods|
      && Last(CurrentMbin(r).modifications).xpath == Last(mods).xpath
      && Last(CurrentMbin(r).modifications).values == Last(mods).values + [nv]
      && CurrentMbin(r).modifications[..|mods| - 1] == mods[..|mods| - 1]
  {
  }

  /** `name = value` splits into the trimmed name and value; an empty side is absent. */
  lemma {:induction false} AssignmentRoundTrip(name: string, value: string)
    requires NoOuterSpace(name) && NoOuterSpace(value) && '=' !in name
    ensures SplitAssignment(name + "=" + value) == NameValue(Present(name), Present(value))
  {
    var line := name + "=" + value;
    assert line[|name|] == '=' && line[..|name|] == name && line[|name| + 1..] == value;
    SplitAtFirstEquals(line, |name|);
    TrimFixed(name);
    TrimFixed(value);
  }

  /** Only the first '=' splits: everything after it, '=' included, is the value. */
  lemma SplitAtFirstEquals(line: string, i: nat)
    requires i < |line| && line[i] == '=' && '=' !in line[..i]
    ensures SplitAssignment(line) == NameValue(Present(Trim(line[..i])), Present(Trim(line[i + 1..])))
  {
    assert IndexOf(line, '=') == Some(i);
  }

  // ---- !include ----

  /** A non-blank !include line is handled by IncludeLine. */
  lemma IncludeLineOf(fs: map<string, seq<string>>, depth: nat, st: ParserState, head: nat, raw: string)
    requires Valid(st) && head <= |st.paks|
    requires CleanLine(raw) != [] && Classify(CleanLine(raw)) == Include
    ensures ParseLine(fs, depth, st, head, raw) == IncludeLine(fs, depth, st, head, CleanLine(raw))
  {
  }

  /**
   * !include F continues in the scope F left open: the cursors and paks are those the parse of
   * F left, whether it succeeded or returned NULL; in the latter case the caller's list becomes
   * NULL (every pak so far is orphaned) and the caller still goes on.
   */
  lemma IncludeLineRule(fs: map<string, seq<string>>, depth: nat, st: ParserState, head: nat, raw: string, file: string)
    requires Valid(st) && head <= |st.paks| && depth > 0
    requires Classify(CleanLine(raw)) == Include && Argument(CleanLine(raw)) == Some(file)
    ensures var o := ParseLine(fs, depth, st, head, raw);
      var inner := ParseFile(fs, depth - 1, file, st, head);
      && o.st == inner.st
      && o.result.List?
      && (inner.result.List? ==> o.result == inner.result)
      && (inner.result.Null? ==> ListOf(o) == [])
  {
    var line := CleanLine(raw);
    assert line != [];
    IncludeLineOf(fs, depth, st, head, raw);
    var inner := ParseFile(fs, depth - 1, file, st, head);
    IncludeLineOpens(fs, depth, st, head, line, file, inner);
    var o := IncludeLine(fs, depth, st, head, line);
    assert o.st == inner.st;
    if inner.result.Null? {
      assert o.result.head == |o.st.paks|;
    }
  }

  /** An included file that cannot be opened changes no cursor and empties the caller's list. */
  lemma MissingIncludeDropsList(fs: map<string, seq<string>>, depth: nat, st: ParserState, head: nat, raw: string, file: string)
    requires Valid(st) && head <= |st.paks| && file !in fs
    requires Classify(CleanLine(raw)) == Include && Argument(CleanLine(raw)) == Some(file)
    ensures var o := ParseLine(fs, depth, st, head, raw);
      o.st == st && o.result == List(|st.paks|) && ListOf(o) == []
  {
    assert CleanLine(raw) != [];
    IncludeLineOf(fs, depth, st, head, raw);
    MissingIncludeFile(fs, depth, st, head, CleanLine(raw), file);
  }

  lemma MissingIncludeFile(fs: map<string, seq<string>>, depth: nat, st: ParserState, head: nat, line: string, file: string)
    requires Valid(st) && head <= |st.paks| && file !in fs && Argument(line) == Some(file)
    ensures IncludeLine(fs, depth, st, head, line) == Outcome(st, List(|st.paks|))
  {
  }

  /**
   * When the included file parses without returning NULL, the including file goes on exactly as
   * if the included lines had been written in place of the !include line.
   */
  lemma {:induction false} IncludeAsInline(fs: map<string, seq<string>>, depth: nat, st: ParserState, head: nat, raw: string, rest: seq<string>, file: string)
    requires Valid(st) && head <= |st.paks| && depth > 0 && file in fs
    requires Classify(CleanLine(raw)) == Include && Argument(CleanLine(raw)) == Some(file)
    requires ParseLines(fs, depth - 1, fs[file], st, head).result.List?
    ensures var inner := ParseLines(fs, depth - 1, fs[file], st, head);
      ParseLines(fs, depth, [raw] + rest, st, head) == ParseLines(fs, depth, rest, inner.st, inner.result.head)
  {
    var line := CleanLine(raw);
    assert line != [];
    var inner := ParseLines(fs, depth - 1, fs[file], st, head);
    assert ParseFile(fs, depth - 1, file, st, head) == inner;
    assert IncludeLine(fs, depth, st, head, line) == inner;
    assert ParseLine(fs, depth, st, head, raw) == inner;
    assert ([raw] + rest)[0] == raw && ([raw] + rest)[1..] == rest;
  }

  // ---- invariants of a whole parse ----

  /**
   * After any parse, every counter equals the length of its list, input paks are unique by path
   * within their output pak and MBINs unique by name within their input pak.
   */
  lemma CountersMatchLengths(fs: map<string, seq<string>>, depth: nat, path: string)
    ensures var paks := ParseDefinitionFile(fs, depth, path).st.paks;
      forall k :: 0 <= k < |paks| ==>
        && paks[k].extraFileCount == |paks[k].extraFiles|
        && paks[k].totalMbinCount == MbinTotal(paks[k].inputs)
        && DistinctInputs(paks[k].inputs)
        && (forall i :: 0 <= i < |paks[k].inputs| ==>
              paks[k].inputs[i].mbinCount == |paks[k].inputs[i].mbins| && DistinctMbins(paks[k].inputs[i].mbins))
  {
    var paks := ParseDefinitionFile(fs, depth, path).st.paks;
    assert forall k :: 0 <= k < |paks| ==> OutputPakOk(paks[k]);
  }
}
