/**
 * set_item from src/definition.c: for every node the current XPath selects, the pair
 * (name, value) is upserted among the node's children. The XML document is an arena of
 * elements addressed by id; the node set XPath evaluation yields is an input.
 */
module Upsert {
  import opened Wrappers

  type NodeId = nat

  /** An element: its tag, its attributes and the ids of its children, in document order. */
  datatype Element = Element(tag: string, attrs: map<string, string>, children: seq<NodeId>)

  /** A document: every element by id, and the id the next new element gets. */
  datatype Doc = Doc(elems: map<NodeId, Element>, next: NodeId)

  /** Ids are below next, so next is fresh, and every child id names an element. */
  predicate Valid(d: Doc) {
    && (forall id :: id in d.elems ==> id < d.next)
    && (forall id, c :: id in d.elems && c in d.elems[id].children ==> c in d.elems)
  }

  /** The attribute set_item compares: `name` when a name is given, else `value`. */
  function Key(name: Option<string>): (r: string)
    ensures r == "name" || r == "value"
    ensures r == "name" <==> name.Some?
  {
    if name.Some? then "name" else "value"
  }

  /** The text that attribute must equal. */
  function Want(name: Option<string>, value: Option<string>): (r: string)
    requires name.Some? || value.Some?
    ensures name.Some? ==> r == name.value
    ensures name.None? ==> value == Some(r)
  {
    if name.Some? then name.value else value.value
  }

  /** The text a `value` attribute gets: an absent value leaves it empty. */
  function ValueText(value: Option<string>): string {
    if value.Some? then value.value else ""
  }

  predicate Matches(e: Element, key: string, want: string) {
    key in e.attrs && e.attrs[key] == want
  }

  /** The position of the first child whose attribute key equals want, if any. */
  function FirstMatch(elems: map<NodeId, Element>, cs: seq<NodeId>, key: string, want: string): (r: Option<nat>)
    requires forall c :: c in cs ==> c in elems
    ensures r.Some? ==> r.value < |cs| && Matches(elems[cs[r.value]], key, want)
    ensures r.Some? ==> forall j :: 0 <= j < r.value ==> !Matches(elems[cs[j]], key, want)
    ensures r.None? <==> forall j :: 0 <= j < |cs| ==> !Matches(elems[cs[j]], key, want)
  {
    if cs == [] then None
    else if Matches(elems[cs[0]], key, want) then Some(0)
    else match FirstMatch(elems, cs[1..], key, want)
      case None => None
      case Some(k) => Some(k + 1)
  }

  /** A matching child with no match before it is the first match. */
  lemma FirstMatchIs(elems: map<NodeId, Element>, cs: seq<NodeId>, key: string, want: string, k: nat)
    requires forall c :: c in cs ==> c in elems
    requires k < |cs| && Matches(elems[cs[k]], key, want)
    requires forall j :: 0 <= j < k ==> !Matches(elems[cs[j]], key, want)
    ensures FirstMatch(elems, cs, key, want) == Some(k)
  {
  }

  /** The Property element created when no child matches, carrying the attributes present. */
  function NewProperty(name: Option<string>, value: Option<string>): (e: Element)
    ensures e.tag == "Property" && e.children == []
    ensures forall k :: k in e.attrs ==> k == "name" || k == "value"
    ensures name.Some? ==> Matches(e, "name", name.value)
    ensures value.Some? ==> Matches(e, "value", value.value)
    ensures name.Some? || value.Some? ==> Matches(e, Key(name), Want(name, value))
  {
    Element("Property",
      (if name.Some? then map["name" := name.value] else map[])
        + (if value.Some? then map["value" := value.value] else map[]),
      [])
  }

  /** The pair upserted under one matched node. */
  function UpsertAt(d: Doc, node: NodeId, name: Option<string>, value: Option<string>): (r: Doc)
    requires Valid(d) && node in d.elems && (name.Some? || value.Some?)
    ensures Valid(r) && d.elems.Keys <= r.elems.Keys
  {
    var e := d.elems[node];
    match FirstMatch(d.elems, e.children, Key(name), Want(name, value))
    case Some(k) =>
      var c := e.children[k];
      var ce := d.elems[c];
      d.(elems := d.elems[c := ce.(attrs := ce.attrs["value" := ValueText(value)])])
    case None =>
      Doc(d.elems[d.next := NewProperty(name, value)][node := e.(children := e.children + [d.next])], d.next + 1)
  }

  /** The pair upserted under each node of the set, in order. */
  function UpsertAll(d: Doc, nodes: seq<NodeId>, name: Option<string>, value: Option<string>): (r: Doc)
    requires Valid(d) && (forall n :: n in nodes ==> n in d.elems) && (name.Some? || value.Some?)
    ensures Valid(r) && d.elems.Keys <= r.elems.Keys
    decreases |nodes|
  {
    if nodes == [] then d
    else
      var prev := UpsertAll(d, nodes[..|nodes| - 1], name, value);
      UpsertAt(prev, nodes[|nodes| - 1], name, value)
  }

  /**
   * set_item(name, value) on a document; matched is the node set the XPath selects, or None
   * when it could not be evaluated.
   */
  function SetItemSpec(d: Doc, name: Option<string>, value: Option<string>, matched: Option<seq<NodeId>>): (r: Doc)
    requires Valid(d) && (matched.Some? ==> forall n :: n in matched.value ==> n in d.elems)
    ensures Valid(r)
  {
    if name.None? && value.None? then d
    else match matched
      case None => d
      case Some(nodes) => UpsertAll(d, nodes, name, value)
  }

  /** The upsert of the first i + 1 nodes, from that of the first i. */
  lemma UpsertAllStep(d: Doc, nodes: seq<NodeId>, i: nat, name: Option<string>, value: Option<string>)
    requires Valid(d) && (forall n :: n in nodes ==> n in d.elems) && (name.Some? || value.Some?) && i < |nodes|
    ensures forall n :: n in nodes[..i + 1] ==> n in d.elems
    ensures forall n :: n in nodes[..i] ==> n in d.elems
    ensures nodes[i] in UpsertAll(d, nodes[..i], name, value).elems
    ensures UpsertAll(d, nodes[..i + 1], name, value) == UpsertAt(UpsertAll(d, nodes[..i], name, value), nodes[i], name, value)
  {
    assert nodes[..i + 1][..i] == nodes[..i];
    assert nodes[i] in nodes;
  }

  /** The document set_item works on (the global doc), updated in place. */
  class Document {
    var elems: map<NodeId, Element>
    var next: NodeId

    function Model(): Doc
      reads this
    {
      Doc(elems, next)
    }

    constructor (d: Doc)
      requires Valid(d)
      ensures Model() == d
    {
      elems := d.elems;
      next := d.next;
    }

    /** set_item: both loops of src/definition.c over the node set and each node's children. */
    method SetItem(name: Option<string>, value: Option<string>, matched: Option<seq<NodeId>>)
      requires Valid(Model()) && (matched.Some? ==> forall n :: n in matched.value ==> n in elems)
      modifies this
      ensures Model() == SetItemSpec(old(Model()), name, value, matched)
    {
      if name.None? && value.None? {
        return;
      }
      if matched.None? {
        return;
      }
      var nodes := matched.value;
      ghost var d0 := Model();
      var i := 0;
      while i < |nodes|
        invariant 0 <= i <= |nodes|
        invariant forall n :: n in nodes[..i] ==> n in d0.elems
        invariant Model() == UpsertAll(d0, nodes[..i], name, value)
      {
        UpsertAllStep(d0, nodes, i, name, value);
        UpsertNode(nodes[i], name, value);
        i := i + 1;
      }
      assert nodes[..i] == nodes;
    }

    /** The inner loop: the first child whose key attribute matches gets the value, else a new child. */
    method UpsertNode(node: NodeId, name: Option<string>, value: Option<string>)
      requires Valid(Model()) && node in elems && (name.Some? || value.Some?)
      modifies this
      ensures Model() == UpsertAt(old(Model()), node, name, value)
    {
      var key := Key(name);
      var want := Want(name, value);
      var children := elems[node].children;
      var k := 0;
      while k < |children|
        invariant 0 <= k <= |children|
        invariant elems == old(elems) && next == old(next)
        invariant forall j :: 0 <= j < k ==> !Matches(elems[children[j]], key, want)
      {
        var child := elems[children[k]];
        if key in child.attrs && child.attrs[key] == want {
          FirstMatchIs(elems, children, key, want, k);
          // an existing value attribute is overwritten, a missing one created: the same map update
          elems := elems[children[k] := child.(attrs := child.attrs["value" := ValueText(value)])];
          return;
        }
        k := k + 1;
      }
      assert FirstMatch(elems, children, key, want).None?;
      var e := elems[node];
      elems := elems[next := NewProperty(name, value)][node := e.(children := e.children + [next])];
      next := next + 1;
    }
  }
}
