/**
 * The replay loop of process_definitions (src/definition.c:879-926). For each output pak in
 * list order:
 * - each of its input paks is extracted;
 * - every modification of every MBIN of that input pak is replayed on the MBIN's document,
 *   through the one global xpath buffer and set_item;
 * - the output pak is saved.
 * The xpath buffer is never reset, so a relative `cd` continues from wherever the previous
 * modification (of this MBIN or an earlier one) left it. Extraction (get_input_files), saving
 * (save_pak) and XPath evaluation are parameters. The documents xmlReadFile yields are given
 * in plan order: one per MBIN entry, output paks first, then input paks, then MBINs.
 */
module Replay {
  import opened Wrappers
  import opened Plan
  import opened XPath
  import opened Upsert

  /** XPath evaluation: the node set an expression selects in a document, or None when it fails. */
  type Evaluator = (Doc, string) -> Option<seq<NodeId>>

  /** An evaluator only ever selects elements of the document it is given. */
  ghost predicate Within(eval: Evaluator) {
    forall d: Doc, x: string :: Valid(d) && eval(d, x).Some? ==> forall n :: n in eval(d, x).value ==> n in d.elems
  }

  /** How the replay ends early: status 1 from get_input_files or save_pak, or set_xpath's exit. */
  datatype Stop = ExtractFailed(inputPakFile: string) | SaveFailed(outputPakFile: string) | Exited(error: SelectorError)

  /** The pairs of one modification, each set_item on the document with the buffer as the XPath. */
  function ApplyPairs(d: Doc, xpath: string, values: seq<NameValue>, eval: Evaluator): (r: Doc)
    requires Valid(d) && Within(eval)
    ensures Valid(r)
    decreases |values|
  {
    if values == [] then d
    else
      var prev := ApplyPairs(d, xpath, values[..|values| - 1], eval);
      var nv := values[|values| - 1];
      SetItemSpec(prev, nv.name, nv.value, eval(prev, xpath))
  }

  /** The modifications of one MBIN in order: set_xpath with the raw selector, then the pairs. */
  function ApplyMods(xpath: string, d: Doc, mods: seq<Modification>, eval: Evaluator): (r: Result<(string, Doc), SelectorError>)
    requires Valid(d) && Within(eval)
    ensures r.Ok? ==> Valid(r.value.1)
    decreases |mods|
  {
    if mods == [] then Ok((xpath, d))
    else match ApplyMods(xpath, d, mods[..|mods| - 1], eval)
      case Err(e) => Err(e)
      case Ok(s) =>
        var m := mods[|mods| - 1];
        match Translate(s.0, Some(m.xpath))
        case Err(e) => Err(e)
        case Ok(x) => Ok((x, ApplyPairs(s.1, x, m.values, eval)))
  }

  /**
   * Where the replay stands: the xpath buffer, the document of every MBIN in plan order, the
   * plan index of the next MBIN, and how the replay stopped, if it did.
   */
  datatype Progress = Progress(xpath: string, docs: seq<Doc>, next: nat, stop: Option<Stop>)

  predicate AllValid(docs: seq<Doc>) {
    forall i :: 0 <= i < |docs| ==> Valid(docs[i])
  }

  /** The number of MBIN entries of a whole plan. */
  function PlanTotal(paks: seq<OutputPak>): nat {
    if paks == [] then 0 else PlanTotal(paks[..|paks| - 1]) + MbinTotal(paks[|paks| - 1].inputs)
  }

  /** One MBIN: its modifications on its own document; a selector error is set_xpath's exit. */
  function ReplayMbin(p: Progress, m: MbinData, eval: Evaluator): (r: Progress)
    requires p.stop.None? && p.next < |p.docs| && AllValid(p.docs) && Within(eval)
    ensures AllValid(r.docs) && |r.docs| == |p.docs|
    ensures r.stop.None? ==> r.next == p.next + 1
    ensures r.stop.Some? ==> r.stop.value.Exited?
  {
    match ApplyMods(p.xpath, p.docs[p.next], m.modifications, eval)
    case Err(e) => p.(stop := Some(Exited(e)))
    case Ok(s) => Progress(s.0, p.docs[p.next := s.1], p.next + 1, None)
  }

  /** The MBIN loop of one input pak. */
  function ReplayMbins(p: Progress, mbins: seq<MbinData>, eval: Evaluator): (r: Progress)
    requires p.stop.None? && p.next + |mbins| <= |p.docs| && AllValid(p.docs) && Within(eval)
    ensures AllValid(r.docs) && |r.docs| == |p.docs|
    ensures r.stop.None? ==> r.next == p.next + |mbins|
    ensures r.stop.Some? ==> r.stop.value.Exited?
    decreases |mbins|
  {
    if mbins == [] then p
    else
      var q := ReplayMbins(p, mbins[..|mbins| - 1], eval);
      if q.stop.Some? then q else ReplayMbin(q, mbins[|mbins| - 1], eval)
  }

  /** The input pak loop of one output pak: extract, then replay its MBINs; a failed extraction returns 1. */
  function ReplayInputs(p: Progress, inputs: seq<InputPak>, eval: Evaluator, extractOk: InputPak -> bool): (r: Progress)
    requires p.stop.None? && p.next + MbinTotal(inputs) <= |p.docs| && AllValid(p.docs) && Within(eval)
    ensures AllValid(r.docs) && |r.docs| == |p.docs|
    ensures r.stop.None? ==> r.next == p.next + MbinTotal(inputs)
    decreases |inputs|
  {
    if inputs == [] then p
    else
      var q := ReplayInputs(p, inputs[..|inputs| - 1], eval, extractOk);
      var last := inputs[|inputs| - 1];
      if q.stop.Some? then q
      else if !extractOk(last) then q.(stop := Some(ExtractFailed(last.inputPakFile)))
      else ReplayMbins(q, last.mbins, eval)
  }

  /** The output pak loop: every input pak replayed, then the pak saved; a failed save returns 1. */
  function ReplayPaks(p: Progress, paks: seq<OutputPak>, eval: Evaluator, extractOk: InputPak -> bool, saveOk: OutputPak -> bool): (r: Progress)
    requires p.stop.None? && p.next + PlanTotal(paks) <= |p.docs| && AllValid(p.docs) && Within(eval)
    ensures AllValid(r.docs) && |r.docs| == |p.docs|
    ensures r.stop.None? ==> r.next == p.next + PlanTotal(paks)
    decreases |paks|
  {
    if paks == [] then p
    else
      var q := ReplayPaks(p, paks[..|paks| - 1], eval, extractOk, saveOk);
      var last := paks[|paks| - 1];
      if q.stop.Some? then q
      else
        var s := ReplayInputs(q, last.inputs, eval, extractOk);
        if s.stop.Some? then s
        else if !saveOk(last) then s.(stop := Some(SaveFailed(last.outputPakFile)))
        else s
  }

  /** process_definitions on a whole plan, from the given buffer and the loaded documents. */
  function Process(xpath: string, docs: seq<Doc>, paks: seq<OutputPak>, eval: Evaluator, extractOk: InputPak -> bool, saveOk: OutputPak -> bool): (r: Progress)
    requires |docs| == PlanTotal(paks) && AllValid(docs) && Within(eval)
    ensures r.stop.None? ==> r.next == |docs|
  {
    ReplayPaks(Progress(xpath, docs, 0, None), paks, eval, extractOk, saveOk)
  }

  /** The exit status process_definitions returns when set_xpath did not exit. */
  function Status(r: Progress): (s: int)
    ensures s == 0 || s == 1
    ensures s == 0 <==> r.stop.None?
  {
    if r.stop.None? then 0 else 1
  }

  // ---- the loops over the documents, updated in place ----

  /** The documents' current contents. */
  function Models(docs: seq<Document>): (r: seq<Doc>)
    reads docs
    ensures |r| == |docs| && forall i :: 0 <= i < |docs| ==> r[i] == docs[i].Model()
  {
    seq(|docs|, i reads docs requires 0 <= i < |docs| => docs[i].Model())
  }

  /** Every MBIN has its own xmlData. */
  predicate Distinct(docs: seq<Document>) {
    forall i, j :: 0 <= i < j < |docs| ==> docs[i] != docs[j]
  }

  /**
   * process_definitions. When it returns, stop is what ended the replay early (None for
   * status 0), and unless set_xpath exited (which ends the process, taking the buffer and the
   * documents with it) the buffer and every document are as the replay left them.
   */
  method ProcessDefinitions(buffer: XPathBuffer, docs: seq<Document>, paks: seq<OutputPak>,
                            eval: Evaluator, extractOk: InputPak -> bool, saveOk: OutputPak -> bool)
    returns (stop: Option<Stop>)
    requires |docs| == PlanTotal(paks) && Distinct(docs) && AllValid(Models(docs)) && Within(eval)
    modifies buffer, docs
    ensures var r := Process(old(buffer.xpath), old(Models(docs)), paks, eval, extractOk, saveOk);
      stop == r.stop && (stop.None? || !stop.value.Exited? ==> buffer.xpath == r.xpath && Models(docs) == r.docs)
  {
    ghost var p0 := Progress(buffer.xpath, Models(docs), 0, None);
    var i := 0;
    var k := 0;
    while i < |paks|
      invariant 0 <= i <= |paks| && k == PlanTotal(paks[..i]) && k <= PlanTotal(paks)
      invariant ReplayPaks(p0, paks[..i], eval, extractOk, saveOk) == Progress(buffer.xpath, Models(docs), k, None)
    {
      var pak := paks[i];
      ghost var q := Progress(buffer.xpath, Models(docs), k, None);
      PaksStep(p0, paks, i, q, eval, extractOk, saveOk);
      stop := ReplayInputsInPlace(buffer, docs, k, pak.inputs, eval, extractOk);
      if stop.Some? {
        PaksStopSticks(p0, paks, i + 1, eval, extractOk, saveOk);
        return;
      }
      if !saveOk(pak) {
        stop := Some(SaveFailed(pak.outputPakFile));
        PaksStopSticks(p0, paks, i + 1, eval, extractOk, saveOk);
        return;
      }
      k := k + MbinTotal(pak.inputs);
      i := i + 1;
    }
    assert paks[..i] == paks;
    stop := None;
  }

  /** The input pak loop of one output pak, on the documents from plan index start on. */
  method ReplayInputsInPlace(buffer: XPathBuffer, docs: seq<Document>, start: nat, inputs: seq<InputPak>,
                             eval: Evaluator, extractOk: InputPak -> bool)
    returns (stop: Option<Stop>)
    requires start + MbinTotal(inputs) <= |docs| && Distinct(docs) && AllValid(Models(docs)) && Within(eval)
    modifies buffer, docs
    ensures var r := ReplayInputs(Progress(old(buffer.xpath), old(Models(docs)), start, None), inputs, eval, extractOk);
      stop == r.stop && (stop.None? || !stop.value.Exited? ==> buffer.xpath == r.xpath && Models(docs) == r.docs)
  {
    ghost var p0 := Progress(buffer.xpath, Models(docs), start, None);
    var i := 0;
    var k := start;
    while i < |inputs|
      invariant 0 <= i <= |inputs| && k == start + MbinTotal(inputs[..i]) && MbinTotal(inputs[..i]) <= MbinTotal(inputs)
      invariant ReplayInputs(p0, inputs[..i], eval, extractOk) == Progress(buffer.xpath, Models(docs), k, None)
    {
      var input := inputs[i];
      ghost var q := Progress(buffer.xpath, Models(docs), k, None);
      InputsStep(p0, inputs, i, q, eval, extractOk);
      if !extractOk(input) {
        stop := Some(ExtractFailed(input.inputPakFile));
        InputsStopSticks(p0, inputs, i + 1, eval, extractOk);
        return;
      }
      stop := ReplayMbinsInPlace(buffer, docs, k, input.mbins, eval);
      if stop.Some? {
        InputsStopSticks(p0, inputs, i + 1, eval, extractOk);
        return;
      }
      k := k + |input.mbins|;
      i := i + 1;
    }
    assert inputs[..i] == inputs;
    stop := None;
  }

  /** The MBIN loop of one input pak: each MBIN's document becomes the global doc in turn. */
  method ReplayMbinsInPlace(buffer: XPathBuffer, docs: seq<Document>, start: nat, mbins: seq<MbinData>, eval: Evaluator)
    returns (stop: Option<Stop>)
    requires start + |mbins| <= |docs| && Distinct(docs) && AllValid(Models(docs)) && Within(eval)
    modifies buffer, docs
    ensures var r := ReplayMbins(Progress(old(buffer.xpath), old(Models(docs)), start, None), mbins, eval);
      stop == r.stop && (stop.None? ==> buffer.xpath == r.xpath && Models(docs) == r.docs)
  {
    ghost var p0 := Progress(buffer.xpath, Models(docs), start, None);
    var i := 0;
    while i < |mbins|
      invariant 0 <= i <= |mbins|
      invariant ReplayMbins(p0, mbins[..i], eval) == Progress(buffer.xpath, Models(docs), start + i, None)
    {
      ghost var q := Progress(buffer.xpath, Models(docs), start + i, None);
      MbinsStep(p0, mbins, i, q, eval);
      var err := ReplayMbinInPlace(buffer, docs, start + i, mbins[i], eval);
      if err.Some? {
        stop := Some(Exited(err.value));
        MbinsStopSticks(p0, mbins, i + 1, eval);
        return;
      }
      i := i + 1;
    }
    assert mbins[..i] == mbins;
    stop := None;
  }

  /** One MBIN: its document becomes the global doc and its modifications are replayed on it. */
  method ReplayMbinInPlace(buffer: XPathBuffer, docs: seq<Document>, k: nat, m: MbinData, eval: Evaluator)
    returns (err: Option<SelectorError>)
    requires k < |docs| && Distinct(docs) && AllValid(Models(docs)) && Within(eval)
    modifies buffer, docs
    ensures var r := ReplayMbin(Progress(old(buffer.xpath), old(Models(docs)), k, None), m, eval);
      (err.Some? ==> r.stop == Some(Exited(err.value))) &&
      (err.None? ==> r == Progress(buffer.xpath, Models(docs), k + 1, None))
  {
    var doc := docs[k];
    ghost var q := Progress(buffer.xpath, Models(docs), k, None);
    err := ReplayModsInPlace(buffer, doc, m.modifications, eval);
    if err.None? {
      OnlyOneChanged(docs, q.docs, k);
      MbinOk(q, m, buffer.xpath, doc.Model(), eval);
    }
  }

  /** One MBIN whose modifications succeed: the buffer they leave, and its document replaced. */
  lemma MbinOk(q: Progress, m: MbinData, x: string, d: Doc, eval: Evaluator)
    requires q.stop.None? && q.next < |q.docs| && AllValid(q.docs) && Within(eval)
    requires ApplyMods(q.xpath, q.docs[q.next], m.modifications, eval) == Ok((x, d))
    ensures ReplayMbin(q, m, eval) == Progress(x, q.docs[q.next := d], q.next + 1, None)
  {
  }

  /** After one document's update, the contents are the old ones with that one replaced. */
  lemma OnlyOneChanged(docs: seq<Document>, before: seq<Doc>, k: nat)
    requires k < |docs| == |before| && Distinct(docs)
    requires forall j :: 0 <= j < |docs| && j != k ==> docs[j].Model() == before[j]
    ensures Models(docs) == before[k := docs[k].Model()]
  {
  }

  /** The modification loop of one MBIN: set_xpath, then the set_item loop over its pairs. */
  method ReplayModsInPlace(buffer: XPathBuffer, doc: Document, mods: seq<Modification>, eval: Evaluator)
    returns (err: Option<SelectorError>)
    requires Valid(doc.Model()) && Within(eval)
    modifies buffer, doc
    ensures ApplyMods(old(buffer.xpath), old(doc.Model()), mods, eval).Err? <==> err.Some?
    ensures err.Some? ==> ApplyMods(old(buffer.xpath), old(doc.Model()), mods, eval) == Err(err.value)
    ensures err.None? ==> ApplyMods(old(buffer.xpath), old(doc.Model()), mods, eval) == Ok((buffer.xpath, doc.Model()))
  {
    ghost var x0 := buffer.xpath;
    ghost var d0 := doc.Model();
    var i := 0;
    while i < |mods|
      invariant 0 <= i <= |mods|
      invariant Valid(doc.Model())
      invariant ApplyMods(x0, d0, mods[..i], eval) == Ok((buffer.xpath, doc.Model()))
    {
      ghost var xi := buffer.xpath;
      ghost var di := doc.Model();
      var r := buffer.SetXPath(Some(mods[i].xpath));
      ModsStep(x0, d0, mods, i, xi, di, eval);
      if r.Err? {
        err := Some(r.error);
        ModsErrorSticks(x0, d0, mods, i + 1, eval);
        return;
      }
      SetItems(doc, buffer.xpath, mods[i].values, eval);
      i := i + 1;
    }
    assert mods[..i] == mods;
    err := None;
  }

  /** The set_item loop over one modification's pairs, with the buffer fixed. */
  method SetItems(doc: Document, xpath: string, values: seq<NameValue>, eval: Evaluator)
    requires Valid(doc.Model()) && Within(eval)
    modifies doc
    ensures doc.Model() == ApplyPairs(old(doc.Model()), xpath, values, eval)
  {
    ghost var d0 := doc.Model();
    var j := 0;
    while j < |values|
      invariant 0 <= j <= |values|
      invariant doc.Model() == ApplyPairs(d0, xpath, values[..j], eval)
    {
      assert values[..j + 1][..j] == values[..j];
      doc.SetItem(values[j].name, values[j].value, eval(doc.Model(), xpath));
      j := j + 1;
    }
    assert values[..j] == values;
  }

  // ---- one more iteration ----

  /** The spec of the first i + 1 modifications, from that of the first i. */
  lemma ModsStep(x0: string, d0: Doc, mods: seq<Modification>, i: nat, x: string, d: Doc, eval: Evaluator)
    requires i < |mods| && Valid(d0) && Within(eval)
    requires ApplyMods(x0, d0, mods[..i], eval) == Ok((x, d))
    ensures Translate(x, Some(mods[i].xpath)).Err? ==>
      ApplyMods(x0, d0, mods[..i + 1], eval) == Err(Translate(x, Some(mods[i].xpath)).error)
    ensures Translate(x, Some(mods[i].xpath)).Ok? ==>
      var x' := Translate(x, Some(mods[i].xpath)).value;
      ApplyMods(x0, d0, mods[..i + 1], eval) == Ok((x', ApplyPairs(d, x', mods[i].values, eval)))
  {
    assert mods[..i + 1][..i] == mods[..i];
  }

  /** The spec of the first i + 1 output paks, from that of the first i. */
  lemma PaksStep(p: Progress, paks: seq<OutputPak>, i: nat, q: Progress, eval: Evaluator,
                 extractOk: InputPak -> bool, saveOk: OutputPak -> bool)
    requires i < |paks| && p.stop.None? && p.next + PlanTotal(paks) <= |p.docs| && AllValid(p.docs) && Within(eval)
    requires PlanTotal(paks[..i]) <= PlanTotal(paks)
    requires ReplayPaks(p, paks[..i], eval, extractOk, saveOk) == q && q.stop.None?
    ensures PlanTotal(paks[..i + 1]) == PlanTotal(paks[..i]) + MbinTotal(paks[i].inputs) <= PlanTotal(paks)
    ensures q.next + MbinTotal(paks[i].inputs) <= |q.docs| && AllValid(q.docs)
    ensures var s := ReplayInputs(q, paks[i].inputs, eval, extractOk);
      ReplayPaks(p, paks[..i + 1], eval, extractOk, saveOk) ==
        if s.stop.Some? then s
        else if !saveOk(paks[i]) then s.(stop := Some(SaveFailed(paks[i].outputPakFile)))
        else s
  {
    assert paks[..i + 1][..i] == paks[..i];
    PlanTotalPrefix(paks, i + 1);
    PlanTotalMono(paks, i + 1);
  }

  /** The spec of the first i + 1 input paks, from that of the first i. */
  lemma InputsStep(p: Progress, inputs: seq<InputPak>, i: nat, q: Progress, eval: Evaluator, extractOk: InputPak -> bool)
    requires i < |inputs| && p.stop.None? && p.next + MbinTotal(inputs) <= |p.docs| && AllValid(p.docs) && Within(eval)
    requires MbinTotal(inputs[..i]) <= MbinTotal(inputs)
    requires ReplayInputs(p, inputs[..i], eval, extractOk) == q && q.stop.None?
    ensures MbinTotal(inputs[..i + 1]) == MbinTotal(inputs[..i]) + |inputs[i].mbins| <= MbinTotal(inputs)
    ensures q.next + |inputs[i].mbins| <= |q.docs| && AllValid(q.docs)
    ensures ReplayInputs(p, inputs[..i + 1], eval, extractOk) ==
      if !extractOk(inputs[i]) then q.(stop := Some(ExtractFailed(inputs[i].inputPakFile)))
      else ReplayMbins(q, inputs[i].mbins, eval)
  {
    assert inputs[..i + 1][..i] == inputs[..i];
    MbinTotalPrefix(inputs, i + 1);
    MbinTotalMono(inputs, i + 1);
  }

  /** The spec of the first i + 1 MBINs, from that of the first i. */
  lemma MbinsStep(p: Progress, mbins: seq<MbinData>, i: nat, q: Progress, eval: Evaluator)
    requires i < |mbins| && p.stop.None? && p.next + |mbins| <= |p.docs| && AllValid(p.docs) && Within(eval)
    requires ReplayMbins(p, mbins[..i], eval) == q && q.stop.None?
    ensures q.next < |q.docs| && AllValid(q.docs)
    ensures ReplayMbins(p, mbins[..i + 1], eval) == ReplayMbin(q, mbins[i], eval)
  {
    assert mbins[..i + 1][..i] == mbins[..i];
  }

  // ---- once stopped, nothing further happens ----

  lemma PlanTotalPrefix(paks: seq<OutputPak>, i: nat)
    requires 0 < i <= |paks|
    ensures PlanTotal(paks[..i]) == PlanTotal(paks[..i - 1]) + MbinTotal(paks[i - 1].inputs)
  {
    assert paks[..i][..i - 1] == paks[..i - 1];
  }

  lemma MbinTotalPrefix(inputs: seq<InputPak>, i: nat)
    requires 0 < i <= |inputs|
    ensures MbinTotal(inputs[..i]) == MbinTotal(inputs[..i - 1]) + |inputs[i - 1].mbins|
  {
    assert inputs[..i][..i - 1] == inputs[..i - 1];
  }

  lemma {:induction false} PlanTotalMono(paks: seq<OutputPak>, i: nat)
    requires i <= |paks|
    ensures PlanTotal(paks[..i]) <= PlanTotal(paks)
    decreases |paks|
  {
    if i < |paks| {
      var init := paks[..|paks| - 1];
      assert init[..i] == paks[..i];
      PlanTotalMono(init, i);
    } else {
      assert paks[..i] == paks;
    }
  }

  lemma {:induction false} MbinTotalMono(inputs: seq<InputPak>, i: nat)
    requires i <= |inputs|
    ensures MbinTotal(inputs[..i]) <= MbinTotal(inputs)
    decreases |inputs|
  {
    if i < |inputs| {
      var init := inputs[..|inputs| - 1];
      assert init[..i] == inputs[..i];
      MbinTotalMono(init, i);
    } else {
      assert inputs[..i] == inputs;
    }
  }

  /** A selector error in the first i modifications is the error of them all. */
  lemma {:induction false} ModsErrorSticks(x: string, d: Doc, mods: seq<Modification>, i: nat, eval: Evaluator)
    requires i <= |mods| && Valid(d) && Within(eval)
    requires ApplyMods(x, d, mods[..i], eval).Err?
    ensures ApplyMods(x, d, mods, eval) == ApplyMods(x, d, mods[..i], eval)
    decreases |mods| - i
  {
    if i == |mods| {
      assert mods[..i] == mods;
    } else {
      var init := mods[..|mods| - 1];
      assert init[..i] == mods[..i];
      ModsErrorSticks(x, d, init, i, eval);
    }
  }

  /** Once an MBIN stopped the loop, the rest of the MBIN list changes nothing. */
  lemma {:induction false} MbinsStopSticks(p: Progress, mbins: seq<MbinData>, i: nat, eval: Evaluator)
    requires i <= |mbins| && p.stop.None? && p.next + |mbins| <= |p.docs| && AllValid(p.docs) && Within(eval)
    requires ReplayMbins(p, mbins[..i], eval).stop.Some?
    ensures ReplayMbins(p, mbins, eval) == ReplayMbins(p, mbins[..i], eval)
    decreases |mbins| - i
  {
    if i == |mbins| {
      assert mbins[..i] == mbins;
    } else {
      var init := mbins[..|mbins| - 1];
      assert init[..i] == mbins[..i];
      MbinsStopSticks(p, init, i, eval);
    }
  }

  /** Once an input pak stopped the loop, the rest of the input pak list changes nothing. */
  lemma {:induction false} InputsStopSticks(p: Progress, inputs: seq<InputPak>, i: nat, eval: Evaluator, extractOk: InputPak -> bool)
    requires i <= |inputs| && p.stop.None? && p.next + MbinTotal(inputs) <= |p.docs| && AllValid(p.docs) && Within(eval)
    requires MbinTotal(inputs[..i]) <= MbinTotal(inputs)
    requires ReplayInputs(p, inputs[..i], eval, extractOk).stop.Some?
    ensures ReplayInputs(p, inputs, eval, extractOk) == ReplayInputs(p, inputs[..i], eval, extractOk)
    decreases |inputs| - i
  {
    if i == |inputs| {
      assert inputs[..i] == inputs;
    } else {
      var init := inputs[..|inputs| - 1];
      assert init[..i] == inputs[..i];
      MbinTotalPrefix(inputs, |inputs|);
      MbinTotalMono(init, i);
      InputsStopSticks(p, init, i, eval, extractOk);
    }
  }

  /** Once an output pak stopped the loop, the rest of the plan changes nothing. */
  lemma {:induction false} PaksStopSticks(p: Progress, paks: seq<OutputPak>, i: nat, eval: Evaluator,
                                          extractOk: InputPak -> bool, saveOk: OutputPak -> bool)
    requires i <= |paks| && p.stop.None? && p.next + PlanTotal(paks) <= |p.docs| && AllValid(p.docs) && Within(eval)
    requires PlanTotal(paks[..i]) <= PlanTotal(paks)
    requires ReplayPaks(p, paks[..i], eval, extractOk, saveOk).stop.Some?
    ensures ReplayPaks(p, paks, eval, extractOk, saveOk) == ReplayPaks(p, paks[..i], eval, extractOk, saveOk)
    decreases |paks| - i
  {
    if i == |paks| {
      assert paks[..i] == paks;
    } else {
      var init := paks[..|paks| - 1];
      assert init[..i] == paks[..i];
      PlanTotalPrefix(paks, |paks|);
      PlanTotalMono(init, i);
      PaksStopSticks(p, init, i, eval, extractOk, saveOk);
    }
  }
}
