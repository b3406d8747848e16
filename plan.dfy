/**
 * The mod plan that parse_definition builds (src/definition.h:41-88): output paks holding
 * input paks holding MBIN files holding modifications (one per `cd`) holding name/value pairs.
 * The C linked lists with tail pointers are sequences in list order; the C counters are kept
 * as fields so that their agreement with the list lengths is something to prove.
 */
module Plan {
  import opened Wrappers

  /** One `name=value` line; an empty side is absent (NULL in C). */
  datatype NameValue = NameValue(name: Option<string>, value: Option<string>)

  /** One `cd` block: the raw selector and its pairs in declaration order. */
  datatype Modification = Modification(xpath: string, values: seq<NameValue>)

  /** One MBIN file of an input pak and the modifications to replay on it. */
  datatype MbinData = MbinData(mbinFile: string, modifications: seq<Modification>)

  /** One input pak; mbinCount is the C counter kept beside the list. */
  datatype InputPak = InputPak(inputPakFile: string, mbins: seq<MbinData>, mbinCount: nat)

  /** One output pak; extraFiles is in list order, which is the reverse of declaration order. */
  datatype OutputPak = OutputPak(
    outputPakFile: string,
    inputs: seq<InputPak>,
    totalMbinCount: nat,
    extraFiles: seq<string>,
    extraFileCount: nat)

  /** The number of MBIN entries under a list of input paks. */
  function MbinTotal(inputs: seq<InputPak>): nat {
    if inputs == [] then 0 else MbinTotal(inputs[..|inputs| - 1]) + |inputs[|inputs| - 1].mbins|
  }

  /** The total bounds every input pak's MBIN count, and is 0 exactly when no input pak has an MBIN. */
  lemma {:induction false} MbinTotalCounts(inputs: seq<InputPak>)
    ensures forall i :: 0 <= i < |inputs| ==> |inputs[i].mbins| <= MbinTotal(inputs)
    ensures MbinTotal(inputs) == 0 <==> forall i :: 0 <= i < |inputs| ==> inputs[i].mbins == []
    decreases |inputs|
  {
    if inputs != [] {
      MbinTotalCounts(inputs[..|inputs| - 1]);
    }
  }

  lemma MbinTotalAppend(inputs: seq<InputPak>, p: InputPak)
    ensures MbinTotal(inputs + [p]) == MbinTotal(inputs) + |p.mbins|
  {
    assert (inputs + [p])[..|inputs|] == inputs;
  }

  /** Replacing one input pak changes the total by the difference of its MBIN lists. */
  lemma {:induction false} MbinTotalUpdate(inputs: seq<InputPak>, i: nat, p: InputPak)
    requires i < |inputs|
    ensures MbinTotal(inputs[i := p]) + |inputs[i].mbins| == MbinTotal(inputs) + |p.mbins|
    decreases |inputs|
  {
    var n := |inputs| - 1;
    var updated := inputs[i := p];
    assert updated[..n] == if i == n then inputs[..n] else inputs[..n][i := p];
    if i < n {
      MbinTotalUpdate(inputs[..n], i, p);
    }
  }

  /** MBIN names are unique within an input pak. */
  predicate DistinctMbins(mbins: seq<MbinData>) {
    forall i, j :: 0 <= i < j < |mbins| ==> mbins[i].mbinFile != mbins[j].mbinFile
  }

  /** Input pak paths are unique within an output pak. */
  predicate DistinctInputs(inputs: seq<InputPak>) {
    forall i, j :: 0 <= i < j < |inputs| ==> inputs[i].inputPakFile != inputs[j].inputPakFile
  }

  /** The invariant of an input pak: its counter is its list length and its MBINs are unique. */
  predicate InputPakOk(p: InputPak) {
    p.mbinCount == |p.mbins| && DistinctMbins(p.mbins)
  }

  /** The invariant of an output pak: both counters are list lengths, and its entries are unique. */
  predicate OutputPakOk(p: OutputPak) {
    && p.extraFileCount == |p.extraFiles|
    && p.totalMbinCount == MbinTotal(p.inputs)
    && DistinctInputs(p.inputs)
    && forall i :: 0 <= i < |p.inputs| ==> InputPakOk(p.inputs[i])
  }

  /** search_input_pak as a scan of the input pak list: the first entry with exactly this path. */
  function SearchInputPak(inputs: seq<InputPak>, path: string): (r: Option<nat>)
    ensures r.Some? ==> r.value < |inputs| && inputs[r.value].inputPakFile == path
    ensures r.Some? ==> forall j :: 0 <= j < r.value ==> inputs[j].inputPakFile != path
    ensures r.None? ==> forall j :: 0 <= j < |inputs| ==> inputs[j].inputPakFile != path
  {
    if inputs == [] then None
    else if inputs[0].inputPakFile == path then Some(0)
    else match SearchInputPak(inputs[1..], path)
      case None => None
      case Some(k) => Some(k + 1)
  }

  /** search_mbin as a scan of the MBIN list: the first entry with exactly this name. */
  function SearchMbin(mbins: seq<MbinData>, name: string): (r: Option<nat>)
    ensures r.Some? ==> r.value < |mbins| && mbins[r.value].mbinFile == name
    ensures r.Some? ==> forall j :: 0 <= j < r.value ==> mbins[j].mbinFile != name
    ensures r.None? ==> forall j :: 0 <= j < |mbins| ==> mbins[j].mbinFile != name
  {
    if mbins == [] then None
    else if mbins[0].mbinFile == name then Some(0)
    else match SearchMbin(mbins[1..], name)
      case None => None
      case Some(k) => Some(k + 1)
  }
}
