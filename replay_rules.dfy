/**
 * Properties of the replay in process_definitions: how the one xpath buffer threads through
 * modifications and MBIN files, which documents each loop may touch, and how failures end it.
 */
module ReplayRules {
  import opened Wrappers
  import opened Plan
  import opened XPath
  import opened Upsert
  import opened Replay
  import opened CStrings
  import opened XPathRules

  // ---- the xpath buffer is threaded, never reset ----

  /** Replaying a + b is replaying a, then b from the buffer and document a left. */
  lemma {:induction false} ApplyModsAppend(x: string, d: Doc, a: seq<Modification>, b: seq<Modification>, eval: Evaluator)
    requires Valid(d) && Within(eval)
    ensures ApplyMods(x, d, a, eval).Err? ==> ApplyMods(x, d, a + b, eval) == ApplyMods(x, d, a, eval)
    ensures ApplyMods(x, d, a, eval).Ok? ==>
      var s := ApplyMods(x, d, a, eval).value;
      ApplyMods(x, d, a + b, eval) == ApplyMods(s.0, s.1, b, eval)
    decreases |b|
  {
    if b == [] {
      assert a + b == a;
    } else {
      var b' := b[..|b| - 1];
      assert (a + b)[..|a + b| - 1] == a + b';
      assert (a + b)[|a + b| - 1] == b[|b| - 1];
      ApplyModsAppend(x, d, a, b', eval);
    }
  }

  /** A modification list that starts with an absolute `cd` does not depend on the buffer it finds. */
  lemma AbsoluteFirstForgets(x1: string, x2: string, d: Doc, mods: seq<Modification>, eval: Evaluator)
    requires Valid(d) && Within(eval)
    requires mods != [] && |mods[0].xpath| > 0 && mods[0].xpath[0] == '/'
    ensures ApplyMods(x1, d, mods, eval) == ApplyMods(x2, d, mods, eval)
  {
    var head := mods[..1];
    assert head + mods[1..] == mods;
    assert head[..0] == [];
    AbsoluteIgnoresBuffer(x1, x2, mods[0].xpath);
    ApplyModsAppend(x1, d, head, mods[1..], eval);
    ApplyModsAppend(x2, d, head, mods[1..], eval);
  }

  /** A selector token that is a plain name: a Property test on the name attribute. */
  predicate PlainName(n: string) {
    n != [] && n[0] != '*' && n != ".." && '=' !in n && '/' !in n
  }

  /** `cd /a` from any buffer. */
  lemma AbsolutePlainSelector(x: string, a: string)
    requires PlainName(a)
    ensures Translate(x, Some("/" + a)) == Ok("/Data/" + NameStep(a))
  {
    assert "/" + a == ['/'] + a;
    assert Base(x, "/" + a) == "/Data/";
    TokensOfDelimiterFirst('/', a, Slash);
    TokensOfWord(a, Slash);
    NameToken(a);
  }

  /** `cd b` from a non-empty buffer. */
  lemma RelativePlainSelector(x: string, b: string)
    requires PlainName(b) && x != []
    ensures Translate(x, Some(b)) == Ok(x + "/" + NameStep(b))
  {
    TokensOfWord(b, Slash);
    NameToken(b);
  }

  /**
   * The buffer carries from one MBIN file to the next: after an MBIN whose only modification
   * is `cd /a`, the next MBIN's `cd b` selects b below a, not below /Data.
   */
  lemma RelativeCdContinuesAcrossMbins(p: Progress, m1: MbinData, m2: MbinData, a: string, b: string, eval: Evaluator)
    requires p.stop.None? && p.next + 2 <= |p.docs| && AllValid(p.docs) && Within(eval)
    requires PlainName(a) && PlainName(b)
    requires m1.modifications == [Modification("/" + a, [])] && m2.modifications == [Modification(b, [])]
    ensures
      var r := ReplayMbins(p, [m1, m2], eval);
      r.stop.None? && r.xpath == "/Data/" + NameStep(a) + "/" + NameStep(b) && r.docs == p.docs
  {
    var x1 := "/Data/" + NameStep(a);
    AbsolutePlainSelector(p.xpath, a);
    RelativePlainSelector(x1, b);
    assert [m1, m2][..1] == [m1];
    assert [m1][..0] == [];
    var q := ReplayMbins(p, [m1], eval);
    assert ReplayMbins(p, [], eval) == p;
    OneSelectorMbin(p, m1, "/" + a, x1, eval);
    assert q == ReplayMbin(p, m1, eval);
    assert q == Progress(x1, p.docs, p.next + 1, None);
    OneSelectorMbin(q, m2, b, x1 + "/" + NameStep(b), eval);
  }

  /** An MBIN whose only modification is a `cd` without pairs moves the buffer and keeps the document. */
  lemma OneSelectorMbin(p: Progress, m: MbinData, s: string, x: string, eval: Evaluator)
    requires p.stop.None? && p.next < |p.docs| && AllValid(p.docs) && Within(eval)
    requires m.modifications == [Modification(s, [])] && Translate(p.xpath, Some(s)) == Ok(x)
    ensures ReplayMbin(p, m, eval) == Progress(x, p.docs, p.next + 1, None)
  {
    var d := p.docs[p.next];
    assert m.modifications[..0] == [];
    assert ApplyMods(p.xpath, d, [], eval) == Ok((p.xpath, d));
    assert ApplyPairs(d, x, [], eval) == d;
    assert ApplyMods(p.xpath, d, m.modifications, eval) == Ok((x, d));
    assert p.docs[p.next := d] == p.docs;
  }

  // ---- which documents each loop touches ----

  /** A predicate on two document lists: equal outside plan indices lo..hi. */
  ghost predicate SameOutside(a: seq<Doc>, b: seq<Doc>, lo: nat, hi: nat) {
    |a| == |b| && forall j :: 0 <= j < |a| && (j < lo || hi <= j) ==> a[j] == b[j]
  }

  /** The MBIN loop only changes the documents of its own MBINs. */
  lemma {:induction false} MbinsTouchOwnDocs(p: Progress, mbins: seq<MbinData>, eval: Evaluator)
    requires p.stop.None? && p.next + |mbins| <= |p.docs| && AllValid(p.docs) && Within(eval)
    ensures SameOutside(ReplayMbins(p, mbins, eval).docs, p.docs, p.next, p.next + |mbins|)
    decreases |mbins|
  {
    if mbins != [] {
      MbinsTouchOwnDocs(p, mbins[..|mbins| - 1], eval);
    }
  }

  /** The input pak loop only changes the documents of its own input paks' MBINs. */
  lemma {:induction false} InputsTouchOwnDocs(p: Progress, inputs: seq<InputPak>, eval: Evaluator, extractOk: InputPak -> bool)
    requires p.stop.None? && p.next + MbinTotal(inputs) <= |p.docs| && AllValid(p.docs) && Within(eval)
    ensures SameOutside(ReplayInputs(p, inputs, eval, extractOk).docs, p.docs, p.next, p.next + MbinTotal(inputs))
    decreases |inputs|
  {
    if inputs != [] {
      var init := inputs[..|inputs| - 1];
      InputsTouchOwnDocs(p, init, eval, extractOk);
      var q := ReplayInputs(p, init, eval, extractOk);
      if q.stop.None? && extractOk(inputs[|inputs| - 1]) {
        MbinsTouchOwnDocs(q, inputs[|inputs| - 1].mbins, eval);
      }
    }
  }

  /** The output pak loop only changes documents from plan index p.next on, and no more of them than the plan has. */
  lemma {:induction false} PaksTouchOwnDocs(p: Progress, paks: seq<OutputPak>, eval: Evaluator,
                                            extractOk: InputPak -> bool, saveOk: OutputPak -> bool)
    requires p.stop.None? && p.next + PlanTotal(paks) <= |p.docs| && AllValid(p.docs) && Within(eval)
    ensures SameOutside(ReplayPaks(p, paks, eval, extractOk, saveOk).docs, p.docs, p.next, p.next + PlanTotal(paks))
    decreases |paks|
  {
    if paks != [] {
      var init := paks[..|paks| - 1];
      PaksTouchOwnDocs(p, init, eval, extractOk, saveOk);
      var q := ReplayPaks(p, init, eval, extractOk, saveOk);
      if q.stop.None? {
        InputsTouchOwnDocs(q, paks[|paks| - 1].inputs, eval, extractOk);
      }
    }
  }

  /** An MBIN without modifications keeps its document, and the buffer is passed on as it was. */
  lemma NoModificationsNoChange(p: Progress, m: MbinData, eval: Evaluator)
    requires p.stop.None? && p.next < |p.docs| && AllValid(p.docs) && Within(eval)
    requires m.modifications == []
    ensures ReplayMbin(p, m, eval) == p.(next := p.next + 1)
  {
    assert p.docs[p.next := p.docs[p.next]] == p.docs;
  }

  // ---- failures ----

  /** An input pak whose extraction fails ends the input pak loop with status 1. */
  lemma {:induction false} ExtractFailureFails(p: Progress, inputs: seq<InputPak>, i: nat, eval: Evaluator, extractOk: InputPak -> bool)
    requires p.stop.None? && p.next + MbinTotal(inputs) <= |p.docs| && AllValid(p.docs) && Within(eval)
    requires i < |inputs| && !extractOk(inputs[i])
    ensures ReplayInputs(p, inputs, eval, extractOk).stop.Some?
    decreases |inputs|
  {
    if i < |inputs| - 1 {
      var init := inputs[..|inputs| - 1];
      ExtractFailureFails(p, init, i, eval, extractOk);
    }
  }

  /** Any output pak that cannot be saved, or any input pak that cannot be extracted, makes the status 1. */
  lemma {:induction false} PakFailureFails(p: Progress, paks: seq<OutputPak>, i: nat, eval: Evaluator,
                                           extractOk: InputPak -> bool, saveOk: OutputPak -> bool)
    requires p.stop.None? && p.next + PlanTotal(paks) <= |p.docs| && AllValid(p.docs) && Within(eval)
    requires i < |paks| && (!saveOk(paks[i]) || exists j :: 0 <= j < |paks[i].inputs| && !extractOk(paks[i].inputs[j]))
    ensures ReplayPaks(p, paks, eval, extractOk, saveOk).stop.Some?
    decreases |paks|
  {
    var init := paks[..|paks| - 1];
    if i < |paks| - 1 {
      PakFailureFails(p, init, i, eval, extractOk, saveOk);
    } else {
      var q := ReplayPaks(p, init, eval, extractOk, saveOk);
      if q.stop.None? && saveOk(paks[i]) {
        var j :| 0 <= j < |paks[i].inputs| && !extractOk(paks[i].inputs[j]);
        ExtractFailureFails(q, paks[i].inputs, j, eval, extractOk);
      }
    }
  }

  /** When every input pak extracts, the input pak loop can stop only through set_xpath's exit. */
  lemma {:induction false} AllExtractedOnlyExit(p: Progress, inputs: seq<InputPak>, eval: Evaluator, extractOk: InputPak -> bool)
    requires p.stop.None? && p.next + MbinTotal(inputs) <= |p.docs| && AllValid(p.docs) && Within(eval)
    requires forall j :: 0 <= j < |inputs| ==> extractOk(inputs[j])
    ensures ReplayInputs(p, inputs, eval, extractOk).stop.None? || ReplayInputs(p, inputs, eval, extractOk).stop.value.Exited?
    decreases |inputs|
  {
    if inputs != [] {
      AllExtractedOnlyExit(p, inputs[..|inputs| - 1], eval, extractOk);
    }
  }

  /** When every input pak extracts and every output pak saves, only set_xpath's exit stops the replay. */
  lemma {:induction false} AllSavedOnlyExit(p: Progress, paks: seq<OutputPak>, eval: Evaluator,
                                            extractOk: InputPak -> bool, saveOk: OutputPak -> bool)
    requires p.stop.None? && p.next + PlanTotal(paks) <= |p.docs| && AllValid(p.docs) && Within(eval)
    requires forall i, j :: 0 <= i < |paks| && 0 <= j < |paks[i].inputs| ==> extractOk(paks[i].inputs[j])
    requires forall i :: 0 <= i < |paks| ==> saveOk(paks[i])
    ensures ReplayPaks(p, paks, eval, extractOk, saveOk).stop.None? || ReplayPaks(p, paks, eval, extractOk, saveOk).stop.value.Exited?
    decreases |paks|
  {
    if paks != [] {
      var init := paks[..|paks| - 1];
      AllSavedOnlyExit(p, init, eval, extractOk, saveOk);
      var q := ReplayPaks(p, init, eval, extractOk, saveOk);
      if q.stop.None? {
        var last := paks[|paks| - 1];
        AllExtractedOnlyExit(q, last.inputs, eval, extractOk);
      }
    }
  }

  /**
   * The status process_definitions returns: 1 when some input pak fails to extract or some
   * output pak fails to save, and 0 when none does, unless set_xpath exited first.
   */
  lemma ProcessStatus(xpath: string, docs: seq<Doc>, paks: seq<OutputPak>, eval: Evaluator,
                      extractOk: InputPak -> bool, saveOk: OutputPak -> bool)
    requires |docs| == PlanTotal(paks) && AllValid(docs) && Within(eval)
    ensures (exists i :: 0 <= i < |paks| && (!saveOk(paks[i]) || exists j :: 0 <= j < |paks[i].inputs| && !extractOk(paks[i].inputs[j])))
      ==> Status(Process(xpath, docs, paks, eval, extractOk, saveOk)) == 1
    ensures (forall i, j :: 0 <= i < |paks| && 0 <= j < |paks[i].inputs| ==> extractOk(paks[i].inputs[j]))
      && (forall i :: 0 <= i < |paks| ==> saveOk(paks[i]))
      && !(Process(xpath, docs, paks, eval, extractOk, saveOk).stop.Some? && Process(xpath, docs, paks, eval, extractOk, saveOk).stop.value.Exited?)
      ==> Status(Process(xpath, docs, paks, eval, extractOk, saveOk)) == 0
  {
    var p := Progress(xpath, docs, 0, None);
    if exists i :: 0 <= i < |paks| && (!saveOk(paks[i]) || exists j :: 0 <= j < |paks[i].inputs| && !extractOk(paks[i].inputs[j])) {
      var i :| 0 <= i < |paks| && (!saveOk(paks[i]) || exists j :: 0 <= j < |paks[i].inputs| && !extractOk(paks[i].inputs[j]));
      PakFailureFails(p, paks, i, eval, extractOk, saveOk);
    }
    if (forall i, j :: 0 <= i < |paks| && 0 <= j < |paks[i].inputs| ==> extractOk(paks[i].inputs[j]))
      && (forall i :: 0 <= i < |paks| ==> saveOk(paks[i])) {
      AllSavedOnlyExit(p, paks, eval, extractOk, saveOk);
    }
  }

  /** When the very first input pak cannot be extracted, nothing is replayed at all. */
  lemma FirstExtractFailureChangesNothing(xpath: string, docs: seq<Doc>, paks: seq<OutputPak>, eval: Evaluator,
                                          extractOk: InputPak -> bool, saveOk: OutputPak -> bool)
    requires |docs| == PlanTotal(paks) && AllValid(docs) && Within(eval)
    requires paks != [] && paks[0].inputs != [] && !extractOk(paks[0].inputs[0])
    ensures Process(xpath, docs, paks, eval, extractOk, saveOk) ==
      Progress(xpath, docs, 0, Some(ExtractFailed(paks[0].inputs[0].inputPakFile)))
  {
    var p := Progress(xpath, docs, 0, None);
    var inputs := paks[0].inputs;
    assert paks[..1][..0] == [];
    assert inputs[..1][..0] == [];
    PlanTotalMono(paks, 1);
    PlanTotalPrefix(paks, 1);
    MbinTotalMono(inputs, 1);
    assert ReplayInputs(p, inputs[..1], eval, extractOk).stop.Some?;
    InputsStopSticks(p, inputs, 1, eval, extractOk);
    PaksStopSticks(p, paks, 1, eval, extractOk, saveOk);
  }
}
