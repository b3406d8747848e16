/**
 * get_mbin_list and get_complete_mbin_list (src/definition.c:446-521): the argument vectors
 * handed to psar and MBINCompiler, made of the MBIN names of an input pak or of a whole
 * output pak, optionally rewritten to their EXML names. The realloc'ed, NULL-terminated
 * `char **` with its `*count` is a sequence whose length is the count.
 */
module MbinList {
  import opened Plan
  import opened Exml
  import opened CStrings

  /** The name an MBIN entry contributes: its own, or its EXML name in EXML mode. */
  function EntryName(m: MbinData, exml: bool): (r: string)
    ensures |r| == |m.mbinFile|
    ensures exml ==> forall j :: 0 <= j <= |r| ==> !OccursAt(r, MbinExt, j)
  {
    if exml then ExmlNoMbin(m.mbinFile); ExmlName(m.mbinFile) else m.mbinFile
  }

  /** The names of one MBIN list, in list order. */
  function Names(mbins: seq<MbinData>, exml: bool): (r: seq<string>)
    ensures |r| == |mbins|
  {
    if mbins == [] then []
    else Names(mbins[..|mbins| - 1], exml) + [EntryName(mbins[|mbins| - 1], exml)]
  }

  /** The names of every MBIN of every input pak: input paks in order, then MBINs in order. */
  function AllNames(inputs: seq<InputPak>, exml: bool): (r: seq<string>)
    ensures |r| == MbinTotal(inputs)
  {
    if inputs == [] then []
    else AllNames(inputs[..|inputs| - 1], exml) + Names(inputs[|inputs| - 1].mbins, exml)
  }

  /** strdup followed by the rewrite loop. */
  method ExmlCopy(name: string) returns (r: string)
    ensures r == ExmlName(name)
  {
    var l := new char[|name|](i requires 0 <= i < |name| => name[i]);
    assert l[..] == name;
    ExmlInPlace(l);
    r := l[..];
  }

  /** An argument vector under construction: the entries before its NULL terminator. */
  class ArgList {
    var items: seq<string>

    constructor (initial: seq<string>)
      ensures items == initial
    {
      items := initial;
    }

    /** get_mbin_list: nothing when the input pak counts no MBIN, else every MBIN name appended. */
    method GetMbinList(data: InputPak)
      modifies this
      ensures items == old(items) + (if data.mbinCount == 0 then [] else Names(data.mbins, false))
    {
      if data.mbinCount == 0 {
        return;
      }
      AppendNames(data.mbins, false);
    }

    /**
     * get_complete_mbin_list: nothing when the output pak counts no MBIN, else the names of
     * every input pak's MBINs, rewritten to EXML names when exml is set.
     */
    method GetCompleteMbinList(data: OutputPak, exml: bool)
      modifies this
      ensures items == old(items) + (if data.totalMbinCount == 0 then [] else AllNames(data.inputs, exml))
    {
      if data.totalMbinCount == 0 {
        return;
      }
      AppendAllNames(data.inputs, exml);
    }

    /** The walk over the input paks, appending the names of each one's MBINs. */
    method AppendAllNames(inputs: seq<InputPak>, exml: bool)
      modifies this
      ensures items == old(items) + AllNames(inputs, exml)
    {
      var i := 0;
      while i < |inputs|
        invariant 0 <= i <= |inputs|
        invariant items == old(items) + AllNames(inputs[..i], exml)
      {
        ghost var before := items;
        AllNamesStep(inputs, i, exml);
        AppendNames(inputs[i].mbins, exml);
        assert items == before + Names(inputs[i].mbins, exml);
        i := i + 1;
      }
      assert inputs[..i] == inputs;
    }

    /** The walk over one MBIN list, appending each entry's name at the end. */
    method AppendNames(mbins: seq<MbinData>, exml: bool)
      modifies this
      ensures items == old(items) + Names(mbins, exml)
    {
      var j := 0;
      while j < |mbins|
        invariant 0 <= j <= |mbins|
        invariant items == old(items) + Names(mbins[..j], exml)
      {
        NamesStep(mbins, j, exml);
        var l: string;
        if exml {
          l := ExmlCopy(mbins[j].mbinFile);
        } else {
          l := mbins[j].mbinFile;
        }
        items := items + [l];
        j := j + 1;
      }
      assert mbins[..j] == mbins;
    }
  }

  lemma AllNamesStep(inputs: seq<InputPak>, i: nat, exml: bool)
    requires i < |inputs|
    ensures AllNames(inputs[..i + 1], exml) == AllNames(inputs[..i], exml) + Names(inputs[i].mbins, exml)
  {
    assert inputs[..i + 1][..i] == inputs[..i];
  }

  lemma NamesStep(mbins: seq<MbinData>, j: nat, exml: bool)
    requires j < |mbins|
    ensures Names(mbins[..j + 1], exml) == Names(mbins[..j], exml) + [EntryName(mbins[j], exml)]
  {
    assert mbins[..j + 1][..j] == mbins[..j];
  }

  // ---- what the lists hold ----

  /** Entry i of an MBIN list's names is the name of MBIN i. */
  lemma {:induction false} NamesInOrder(mbins: seq<MbinData>, exml: bool)
    ensures forall i :: 0 <= i < |mbins| ==> Names(mbins, exml)[i] == EntryName(mbins[i], exml)
    decreases |mbins|
  {
    if mbins != [] {
      NamesInOrder(mbins[..|mbins| - 1], exml);
    }
  }

  /** With the counter equal to the list length, the early return of get_mbin_list is the empty append. */
  lemma MbinListExact(p: InputPak)
    requires InputPakOk(p)
    ensures (if p.mbinCount == 0 then [] else Names(p.mbins, false)) == Names(p.mbins, false)
    ensures |Names(p.mbins, false)| == p.mbinCount
  {
  }

  /**
   * With totalMbinCount equal to the number of MBIN entries, the early return is the empty
   * append, and the entries appended are exactly totalMbinCount: the realloc to
   * totalMbinCount + count + 1 slots leaves room for precisely the terminator.
   */
  lemma CompleteListExact(p: OutputPak, exml: bool)
    requires OutputPakOk(p)
    ensures (if p.totalMbinCount == 0 then [] else AllNames(p.inputs, exml)) == AllNames(p.inputs, exml)
    ensures |AllNames(p.inputs, exml)| == p.totalMbinCount
  {
  }

  /** The flattening follows the input pak list: joining two lists joins their names. */
  lemma {:induction false} AllNamesAppend(a: seq<InputPak>, b: seq<InputPak>, exml: bool)
    ensures AllNames(a + b, exml) == AllNames(a, exml) + AllNames(b, exml)
    decreases |b|
  {
    if b == [] {
      assert a + b == a;
    } else {
      var b' := b[..|b| - 1];
      assert (a + b)[..|a + b| - 1] == a + b';
      AllNamesAppend(a, b', exml);
    }
  }

  /** In EXML mode each entry is the EXML name of the entry in the same place without it. */
  lemma {:induction false} ExmlListIsRewrite(inputs: seq<InputPak>)
    ensures |AllNames(inputs, true)| == |AllNames(inputs, false)|
    ensures forall k :: 0 <= k < |AllNames(inputs, true)| ==>
      AllNames(inputs, true)[k] == ExmlName(AllNames(inputs, false)[k])
    decreases |inputs|
  {
    if inputs != [] {
      var init := inputs[..|inputs| - 1];
      ExmlListIsRewrite(init);
      var mbins := inputs[|inputs| - 1].mbins;
      NamesInOrder(mbins, true);
      NamesInOrder(mbins, false);
      var n := |AllNames(init, false)|;
      forall k | 0 <= k < |AllNames(inputs, true)|
        ensures AllNames(inputs, true)[k] == ExmlName(AllNames(inputs, false)[k])
      {
        if k >= n {
          assert AllNames(inputs, true)[k] == Names(mbins, true)[k - n];
          assert AllNames(inputs, false)[k] == Names(mbins, false)[k - n];
        } else {
          assert AllNames(inputs, true)[k] == AllNames(init, true)[k];
          assert AllNames(inputs, false)[k] == AllNames(init, false)[k];
        }
      }
    }
  }

  /** The list MBINCompiler gets in EXML mode names no ".MBIN" file. */
  lemma ExmlListHasNoMbin(inputs: seq<InputPak>)
    ensures forall k, j :: 0 <= k < |AllNames(inputs, true)| && 0 <= j <= |AllNames(inputs, true)[k]| ==>
      !OccursAt(AllNames(inputs, true)[k], MbinExt, j)
  {
    ExmlListIsRewrite(inputs);
    forall k | 0 <= k < |AllNames(inputs, true)|
      ensures forall j :: 0 <= j <= |AllNames(inputs, true)[k]| ==> !OccursAt(AllNames(inputs, true)[k], MbinExt, j)
    {
      ExmlNoMbin(AllNames(inputs, false)[k]);
    }
  }

  /** A name is in the list exactly when some MBIN of some input pak contributes it. */
  lemma {:induction false} AllNamesMembers(inputs: seq<InputPak>, exml: bool, x: string)
    ensures x in AllNames(inputs, exml) <==>
      exists i, j :: 0 <= i < |inputs| && 0 <= j < |inputs[i].mbins| && x == EntryName(inputs[i].mbins[j], exml)
    decreases |inputs|
  {
    if inputs != [] {
      var last := |inputs| - 1;
      var init := inputs[..last];
      AllNamesMembers(init, exml, x);
      var names := Names(inputs[last].mbins, exml);
      NamesInOrder(inputs[last].mbins, exml);
      assert x in AllNames(inputs, exml) <==> x in AllNames(init, exml) || x in names;
      if x in names {
        var j :| 0 <= j < |names| && names[j] == x;
        assert x == EntryName(inputs[last].mbins[j], exml);
      }
      if exists i, j :: 0 <= i < |inputs| && 0 <= j < |inputs[i].mbins| && x == EntryName(inputs[i].mbins[j], exml) {
        var i, j :| 0 <= i < |inputs| && 0 <= j < |inputs[i].mbins| && x == EntryName(inputs[i].mbins[j], exml);
        if i == last {
          assert names[j] == x;
        } else {
          assert init[i] == inputs[i];
        }
      }
    }
  }
}
