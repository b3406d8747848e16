/**
 * What set_item (src/definition.c:795-866) promises: the no-op cases, the update and append
 * cases under one node, the postcondition over the matched set, and replay.
 */
module UpsertRules {
  import opened Wrappers
  import opened Upsert

  // ---- the no-op cases ----

  /** With neither a name nor a value, set_item returns before touching the document. */
  lemma NothingToSet(d: Doc, matched: Option<seq<NodeId>>)
    requires Valid(d) && (matched.Some? ==> forall n :: n in matched.value ==> n in d.elems)
    ensures SetItemSpec(d, None, None, matched) == d
  {
  }

  /** When the XPath cannot be evaluated, nothing changes. */
  lemma XPathNotFound(d: Doc, name: Option<string>, value: Option<string>)
    requires Valid(d)
    ensures SetItemSpec(d, name, value, None) == d
  {
  }

  // ---- one matched node ----

  /**
   * When child k is the first whose key attribute equals the wanted text, exactly that child
   * changes: its value attribute becomes the value (empty when absent), all else is kept.
   */
  lemma UpsertUpdatesFirstMatch(d: Doc, node: NodeId, name: Option<string>, value: Option<string>, k: nat)
    requires Valid(d) && node in d.elems && (name.Some? || value.Some?)
    requires k < |d.elems[node].children|
    requires Matches(d.elems[d.elems[node].children[k]], Key(name), Want(name, value))
    requires forall j :: 0 <= j < k ==> !Matches(d.elems[d.elems[node].children[j]], Key(name), Want(name, value))
    ensures var r := UpsertAt(d, node, name, value);
      var c := d.elems[node].children[k];
      && r.next == d.next && r.elems.Keys == d.elems.Keys
      && r.elems[c] == d.elems[c].(attrs := d.elems[c].attrs["value" := ValueText(value)])
      && forall id :: id in d.elems && id != c ==> r.elems[id] == d.elems[id]
  {
  }

  /**
   * When no child matches, exactly one new Property element is created, with no children and
   * with a name and a value attribute exactly when those are present, appended as the node's
   * last child; every element already there is kept, bar the node's child list.
   */
  lemma UpsertAppendsProperty(d: Doc, node: NodeId, name: Option<string>, value: Option<string>)
    requires Valid(d) && node in d.elems && (name.Some? || value.Some?)
    requires forall j :: 0 <= j < |d.elems[node].children| ==>
      !Matches(d.elems[d.elems[node].children[j]], Key(name), Want(name, value))
    ensures var r := UpsertAt(d, node, name, value);
      var p := r.elems[d.next];
      && r.next == d.next + 1 && d.next !in d.elems && r.elems.Keys == d.elems.Keys + {d.next}
      && r.elems[node] == d.elems[node].(children := d.elems[node].children + [d.next])
      && p.tag == "Property" && p.children == [] && p.attrs.Keys <= {"name", "value"}
      && ("name" in p.attrs <==> name.Some?) && (name.Some? ==> p.attrs["name"] == name.value)
      && ("value" in p.attrs <==> value.Some?) && (value.Some? ==> p.attrs["value"] == value.value)
      && forall id :: id in d.elems && id != node ==> r.elems[id] == d.elems[id]
  {
  }

  /** Some child of n has the key attribute equal to the wanted text. */
  predicate Found(d: Doc, n: NodeId, name: Option<string>, value: Option<string>)
    requires Valid(d) && n in d.elems && (name.Some? || value.Some?)
  {
    FirstMatch(d.elems, d.elems[n].children, Key(name), Want(name, value)).Some?
  }

  /** The first such child also carries the value: upserting the pair under n again changes nothing. */
  predicate Satisfied(d: Doc, n: NodeId, name: Option<string>, value: Option<string>)
    requires Valid(d) && n in d.elems && (name.Some? || value.Some?)
  {
    var r := FirstMatch(d.elems, d.elems[n].children, Key(name), Want(name, value));
    && r.Some?
    && var e := d.elems[d.elems[n].children[r.value]];
    && "value" in e.attrs && e.attrs["value"] == ValueText(value)
  }

  /** The first match depends only on whether each child matches. */
  lemma {:induction false} FirstMatchAgree(e1: map<NodeId, Element>, e2: map<NodeId, Element>, cs: seq<NodeId>, key: string, want: string)
    requires forall c :: c in cs ==> c in e1 && c in e2
    requires forall c :: c in cs ==> (Matches(e1[c], key, want) <==> Matches(e2[c], key, want))
    ensures FirstMatch(e1, cs, key, want) == FirstMatch(e2, cs, key, want)
    decreases |cs|
  {
    if cs != [] {
      assert cs[0] in cs;
      FirstMatchAgree(e1, e2, cs[1..], key, want);
    }
  }

  /** After the upsert under n, n has a matching child, and it carries the value when one is given. */
  lemma UpsertEstablishes(d: Doc, n: NodeId, name: Option<string>, value: Option<string>)
    requires Valid(d) && n in d.elems && (name.Some? || value.Some?)
    ensures var r := UpsertAt(d, n, name, value);
      Found(r, n, name, value) && (value.Some? ==> Satisfied(r, n, name, value))
  {
    var key, want := Key(name), Want(name, value);
    var cs := d.elems[n].children;
    var r := UpsertAt(d, n, name, value);
    match FirstMatch(d.elems, cs, key, want)
    case Some(k) =>
      var c := cs[k];
      UpsertUpdatesFirstMatch(d, n, name, value, k);
      assert r.elems[n].children == cs;
      assert Matches(r.elems[c], key, want);
      if key == "name" {
        forall y | y in cs
          ensures Matches(d.elems[y], key, want) <==> Matches(r.elems[y], key, want)
        {
        }
        FirstMatchAgree(d.elems, r.elems, cs, key, want);
      }
    case None =>
      UpsertAppendsProperty(d, n, name, value);
      var cs' := cs + [d.next];
      assert r.elems[n].children == cs';
      assert cs'[|cs|] == d.next;
      forall j | 0 <= j < |cs|
        ensures !Matches(r.elems[cs'[j]], key, want)
      {
        assert cs'[j] == cs[j] && cs[j] in d.elems;
        assert r.elems[cs[j]].attrs == d.elems[cs[j]].attrs;
      }
      assert Matches(r.elems[d.next], key, want);
  }

  /** An upsert under any node m keeps every matching child of n matching and carrying its value. */
  lemma UpsertPreserves(d: Doc, m: NodeId, n: NodeId, name: Option<string>, value: Option<string>)
    requires Valid(d) && m in d.elems && n in d.elems && (name.Some? || value.Some?)
    requires Found(d, n, name, value)
    ensures var r := UpsertAt(d, m, name, value);
      && Found(r, n, name, value)
      && (Satisfied(d, n, name, value) ==> Satisfied(r, n, name, value))
  {
    match FirstMatch(d.elems, d.elems[m].children, Key(name), Want(name, value))
    case Some(k) => PreservedByUpdate(d, m, n, name, value, k);
    case None => PreservedByAppend(d, m, n, name, value);
  }

  lemma PreservedByUpdate(d: Doc, m: NodeId, n: NodeId, name: Option<string>, value: Option<string>, k: nat)
    requires Valid(d) && m in d.elems && n in d.elems && (name.Some? || value.Some?)
    requires Found(d, n, name, value)
    requires FirstMatch(d.elems, d.elems[m].children, Key(name), Want(name, value)) == Some(k)
    ensures var r := UpsertAt(d, m, name, value);
      && Found(r, n, name, value)
      && (Satisfied(d, n, name, value) ==> Satisfied(r, n, name, value))
  {
    var r := UpsertAt(d, m, name, value);
    var cs := d.elems[n].children;
    UpsertUpdatesFirstMatch(d, m, name, value, k);
    assert r.elems[n].children == cs;
    if name.Some? {
      NameMatchesKept(d.elems, r.elems, cs, name.value, d.elems[m].children[k], ValueText(value));
      FirstMatchAgree(d.elems, r.elems, cs, "name", name.value);
    } else {
      var x := FirstMatch(d.elems, cs, Key(name), Want(name, value)).value;
      assert Matches(r.elems[cs[x]], Key(name), Want(name, value));
    }
  }

  /** Setting the value attribute of one element changes no element's match on the name attribute. */
  lemma NameMatchesKept(e1: map<NodeId, Element>, e2: map<NodeId, Element>, cs: seq<NodeId>, want: string, changed: NodeId, v: string)
    requires changed in e1 && changed in e2 && e2[changed].attrs == e1[changed].attrs["value" := v]
    requires forall c :: c in cs ==> c in e1 && c in e2 && (c != changed ==> e2[c] == e1[c])
    ensures forall c :: c in cs ==> (Matches(e1[c], "name", want) <==> Matches(e2[c], "name", want))
  {
  }

  lemma PreservedByAppend(d: Doc, m: NodeId, n: NodeId, name: Option<string>, value: Option<string>)
    requires Valid(d) && m in d.elems && n in d.elems && (name.Some? || value.Some?)
    requires Found(d, n, name, value)
    requires FirstMatch(d.elems, d.elems[m].children, Key(name), Want(name, value)).None?
    ensures var r := UpsertAt(d, m, name, value);
      && Found(r, n, name, value)
      && (Satisfied(d, n, name, value) ==> Satisfied(r, n, name, value))
  {
    var key, want := Key(name), Want(name, value);
    var cs := d.elems[n].children;
    var r := UpsertAt(d, m, name, value);
    UpsertAppendsProperty(d, m, name, value);
    assert n != m;
    assert r.elems[n] == d.elems[n];
    forall y | y in cs
      ensures Matches(d.elems[y], key, want) <==> Matches(r.elems[y], key, want)
    {
      assert r.elems[y].attrs == d.elems[y].attrs;
    }
    FirstMatchAgree(d.elems, r.elems, cs, key, want);
  }

  /** Upserting a pair a node already satisfies leaves the document exactly as it was. */
  lemma UpsertOnSatisfied(d: Doc, n: NodeId, name: Option<string>, value: Option<string>)
    requires Valid(d) && n in d.elems && (name.Some? || value.Some?)
    requires Satisfied(d, n, name, value)
    ensures UpsertAt(d, n, name, value) == d
  {
    var cs := d.elems[n].children;
    var k := FirstMatch(d.elems, cs, Key(name), Want(name, value)).value;
    var ce := d.elems[cs[k]];
    assert ce.attrs["value" := ValueText(value)] == ce.attrs;
    assert ce.(attrs := ce.attrs) == ce;
    assert d.elems[cs[k] := ce] == d.elems;
  }

  /** Upserting under a node that already has a matching child creates no element. */
  lemma UpsertOnFound(d: Doc, n: NodeId, name: Option<string>, value: Option<string>)
    requires Valid(d) && n in d.elems && (name.Some? || value.Some?)
    requires Found(d, n, name, value)
    ensures UpsertAt(d, n, name, value).next == d.next
    ensures UpsertAt(d, n, name, value).elems.Keys == d.elems.Keys
  {
  }

  // ---- the matched node set ----

  lemma {:induction false} UpsertAllPreserves(d: Doc, nodes: seq<NodeId>, n: NodeId, name: Option<string>, value: Option<string>)
    requires Valid(d) && (forall m :: m in nodes ==> m in d.elems) && n in d.elems && (name.Some? || value.Some?)
    requires Found(d, n, name, value)
    ensures var r := UpsertAll(d, nodes, name, value);
      && Found(r, n, name, value)
      && (Satisfied(d, n, name, value) ==> Satisfied(r, n, name, value))
    decreases |nodes|
  {
    if nodes != [] {
      var init := nodes[..|nodes| - 1];
      assert forall m :: m in init ==> m in nodes;
      UpsertAllPreserves(d, init, n, name, value);
      var prev := UpsertAll(d, init, name, value);
      assert nodes[|nodes| - 1] in nodes;
      UpsertPreserves(prev, nodes[|nodes| - 1], n, name, value);
    }
  }

  /**
   * After set_item, every matched node has a child whose key attribute equals the wanted text,
   * and, when a value is given, the first such child carries it.
   */
  lemma {:induction false} SetItemEstablishes(d: Doc, name: Option<string>, value: Option<string>, nodes: seq<NodeId>)
    requires Valid(d) && (forall m :: m in nodes ==> m in d.elems) && (name.Some? || value.Some?)
    ensures var r := SetItemSpec(d, name, value, Some(nodes));
      forall n :: n in nodes ==> Found(r, n, name, value) && (value.Some? ==> Satisfied(r, n, name, value))
    decreases |nodes|
  {
    if nodes != [] {
      var init := nodes[..|nodes| - 1];
      var last := nodes[|nodes| - 1];
      assert forall m :: m in init ==> m in nodes;
      SetItemEstablishes(d, name, value, init);
      EstablishStep(d, name, value, nodes);
    }
  }

  /** The step of SetItemEstablishes: the last node is established, the earlier ones preserved. */
  lemma EstablishStep(d: Doc, name: Option<string>, value: Option<string>, nodes: seq<NodeId>)
    requires Valid(d) && (forall m :: m in nodes ==> m in d.elems) && (name.Some? || value.Some?)
    requires nodes != []
    requires var init := nodes[..|nodes| - 1];
      (forall m :: m in init ==> m in d.elems) &&
      var prev := UpsertAll(d, init, name, value);
      forall n :: n in init ==> Found(prev, n, name, value) && (value.Some? ==> Satisfied(prev, n, name, value))
    ensures var r := UpsertAll(d, nodes, name, value);
      forall n :: n in nodes ==> Found(r, n, name, value) && (value.Some? ==> Satisfied(r, n, name, value))
  {
    var init := nodes[..|nodes| - 1];
    var last := nodes[|nodes| - 1];
    var prev := UpsertAll(d, init, name, value);
    assert last in nodes;
    var r := UpsertAt(prev, last, name, value);
    assert r == UpsertAll(d, nodes, name, value);
    UpsertEstablishes(prev, last, name, value);
    forall n | n in nodes
      ensures Found(r, n, name, value) && (value.Some? ==> Satisfied(r, n, name, value))
    {
      if n != last {
        InInit(nodes, n);
        UpsertPreserves(prev, last, n, name, value);
      }
    }
  }

  /** An element of a list other than its last one is in the list without its last one. */
  lemma InInit<T>(s: seq<T>, x: T)
    requires x in s && x != s[|s| - 1]
    ensures x in s[..|s| - 1]
  {
    var j :| 0 <= j < |s| && s[j] == x;
    assert s[..|s| - 1][j] == x;
  }

  lemma {:induction false} UpsertAllOnSatisfied(d: Doc, nodes: seq<NodeId>, name: Option<string>, value: Option<string>)
    requires Valid(d) && (forall m :: m in nodes ==> m in d.elems) && (name.Some? || value.Some?)
    requires forall m :: m in nodes ==> Satisfied(d, m, name, value)
    ensures UpsertAll(d, nodes, name, value) == d
    decreases |nodes|
  {
    if nodes != [] {
      var init := nodes[..|nodes| - 1];
      assert forall m :: m in init ==> m in nodes;
      UpsertAllOnSatisfied(d, init, name, value);
      assert nodes[|nodes| - 1] in nodes;
      UpsertOnSatisfied(d, nodes[|nodes| - 1], name, value);
    }
  }

  lemma {:induction false} UpsertAllOnFound(d: Doc, nodes: seq<NodeId>, name: Option<string>, value: Option<string>)
    requires Valid(d) && (forall m :: m in nodes ==> m in d.elems) && (name.Some? || value.Some?)
    requires forall m :: m in nodes ==> Found(d, m, name, value)
    ensures UpsertAll(d, nodes, name, value).next == d.next
    ensures UpsertAll(d, nodes, name, value).elems.Keys == d.elems.Keys
    decreases |nodes|
  {
    if nodes != [] {
      var init := nodes[..|nodes| - 1];
      var last := nodes[|nodes| - 1];
      assert forall m :: m in init ==> m in nodes;
      UpsertAllOnFound(d, init, name, value);
      assert last in nodes;
      UpsertAllPreserves(d, init, last, name, value);
      UpsertOnFound(UpsertAll(d, init, name, value), last, name, value);
    }
  }

  /** Re-applying set_item with a value given changes nothing. */
  lemma SetItemIdempotent(d: Doc, name: Option<string>, value: Option<string>, matched: Option<seq<NodeId>>)
    requires Valid(d) && (matched.Some? ==> forall n :: n in matched.value ==> n in d.elems)
    requires value.Some?
    ensures var r := SetItemSpec(d, name, value, matched);
      SetItemSpec(r, name, value, matched) == r
  {
    if matched.Some? {
      SetItemEstablishes(d, name, value, matched.value);
      UpsertAllOnSatisfied(SetItemSpec(d, name, value, matched), matched.value, name, value);
    }
  }

  /**
   * Re-applying set_item never adds an element, with or without a value (without one, the
   * second call only gives the created Property an empty value attribute).
   */
  lemma SetItemReplayAddsNoNode(d: Doc, name: Option<string>, value: Option<string>, matched: Option<seq<NodeId>>)
    requires Valid(d) && (matched.Some? ==> forall n :: n in matched.value ==> n in d.elems)
    ensures var r := SetItemSpec(d, name, value, matched);
      && SetItemSpec(r, name, value, matched).next == r.next
      && SetItemSpec(r, name, value, matched).elems.Keys == r.elems.Keys
  {
    if matched.Some? && (name.Some? || value.Some?) {
      SetItemEstablishes(d, name, value, matched.value);
      UpsertAllOnFound(SetItemSpec(d, name, value, matched), matched.value, name, value);
    }
  }
}
