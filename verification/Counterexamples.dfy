// Concrete runs of a device for what does not hold of schemas and parameters.

module Counterexamples {
  import opened Options
  import opened HashTree
  import opened SchemaLayers
  import opened Configuration
  import opened DeviceRuns
  import opened DeviceSchema

  const Plain: Attrs :=
    Attrs(true, {}, Some(Scalar("0")), false, false, false, None, None, false, map[])

  function Single(k: string, n: Node<Attrs, Attrs>): Schema {
    Hash(map[k := n])
  }

  function OneLeaf(k: string, a: Attrs): Schema {
    Single(k, Leaf(a))
  }

  function OneNode(k: string, sub: Schema): Schema {
    Single(k, Branch(sub, Plain))
  }

  // Static x.p, injected leaf x, appended x.q: the full schema loses x.p, which the
  // static schema merged with the injected one still has.
  lemma RevivalBreaksLayers()
    ensures var l := SchemaLayers.Layers.Layers(
                       OneNode("x", OneLeaf("p", Plain)), OneNode("x", OneLeaf("p", Plain)),
                       OneLeaf("x", Plain), OneLeaf("x", Plain));
            var after := AfterAppend(l, OneNode("x", OneLeaf("q", Plain)));
            && Layered(l) && !Layered(after)
            && !Has(after.full, ["x", "p"]) && Has(Merge(after.base, after.injected), ["x", "p"])
  {
    var declared := OneNode("x", OneLeaf("p", Plain));
    var injected := OneLeaf("x", Plain);
    var s := OneNode("x", OneLeaf("q", Plain));
    var l := SchemaLayers.Layers.Layers(declared, declared, injected, injected);
    SameIsReflexive(declared);
    MergeKey(declared, injected, "x");
    SameEntries(Merge(declared, injected), injected);
    var after := AfterAppend(l, s);
    MergeKey(injected, s, "x");
    MergeKey(l.full, after.injected, "x");
    MergeKey(declared, after.injected, "x");
    assert Merge(OneLeaf("p", Plain), OneLeaf("q", Plain)).m["p"] == Leaf(Plain);
    assert Find(after.full, ["x", "p"]) == Find(OneLeaf("q", Plain), ["p"]);
    assert Find(Merge(after.base, after.injected), ["x", "p"])
        == Find(Merge(OneLeaf("p", Plain), OneLeaf("q", Plain)), ["p"]);
  }

  // An injected vector of at least two items, asked to hold at most one: the call throws,
  // but the full schema keeps the new maximum size.
  lemma RefusedMaxSizeBreaksLayers()
    ensures var a := Plain.(vector := true, default := None, minSize := Some(2));
            var l := SchemaLayers.Layers.Layers(Empty(), Empty(), OneLeaf("v", a), OneLeaf("v", a));
            && Layered(l)
            && CheckedUpFront(l, [["v"]], [1])
            && !AfterMaxSizes(l, [["v"]], [1]).ok
            && !Layered(AfterMaxSizes(l, [["v"]], [1]).layers)
  {
    var a := Plain.(vector := true, default := None, minSize := Some(2));
    var l := SchemaLayers.Layers.Layers(Empty(), Empty(), OneLeaf("v", a), OneLeaf("v", a));
    MergeEmpty(OneLeaf("v", a));
    SameIsReflexive(l.declared);
    assert Find(l.full, ["v"]) == Some(Leaf(a)) && Find(l.injected, ["v"]) == Some(Leaf(a));
    assert [["v"]][0] == ["v"] && RefusedOnFullOnly(l, ["v"], 1);
    MaxSizeKeepsLayered(l, ["v"], 1);
  }

  // One entry replaces another unless both are nodes.
  lemma OneReplaces(k: string, a: Node<Attrs, Attrs>, b: Node<Attrs, Attrs>)
    requires a.Leaf? || b.Leaf?
    ensures Merge(Single(k, a), Single(k, b)) == Single(k, b)
  {
    MergeKey(Single(k, a), Single(k, b), k);
    SameEntries(Merge(Single(k, a), Single(k, b)), Single(k, b));
  }

  // A device without any static schema, after one injection
  method Injected(s: Schema) returns (d: Device)
    ensures fresh(d) && Stacked(d.Layers()) && d.staticSchema == Empty()
    ensures d.injectedSchema == d.fullSchema == s
    ensures Stripped(Defaults(s), {}, d.parameters)
  {
    d := new Device(Empty(), Empty());
    ghost var l := d.Layers();
    ghost var added := d.AppendSchema(s);
    AppendKeepsStacked(l, s);
    MergeEmpty(s);
    MergeEmpty(added);
    assert LeavesOf(Empty()) == {};
  }

  // Injecting the leaf x with a default, then x as a node with a leaf q: the parameters
  // keep the leaf x and get nothing for x.q.
  method LeafReplacedByNode() returns (d: Device)
    ensures fresh(d) && Stacked(d.Layers()) && d.staticSchema == Empty()
    ensures d.injectedSchema == d.fullSchema == OneNode("x", OneLeaf("q", Plain))
    ensures LeafAt(d.parameters, ["x"]) == Some(Scalar("0"))
  {
    var first, second := OneLeaf("x", Plain), OneNode("x", OneLeaf("q", Plain));
    d := Injected(first);
    assert Find(first, ["x"]) == Some(Leaf(Plain));
    assert Find(Defaults(first), ["x"]) == Some(Leaf(Scalar("0")));
    ghost var params, l := d.parameters, d.Layers();
    assert LeafAt(params, ["x"]) == Some(Scalar("0"));
    ghost var added := d.AppendSchema(second);
    OneReplaces("x", Leaf(Plain), Branch(OneLeaf("q", Plain), Plain));
    AppendKeepsStacked(l, second);
    AddedSparesOldLeaves(second, first, added, ["x"]);
    MergeFind(params, added, ["x"]);
  }

  method NewLeafWithoutDefault() returns (defaults: Config, params: Config)
    ensures LeafAt(defaults, ["x", "q"]) == Some(Scalar("0")) && !Has(params, ["x", "q"])
    ensures defaults == Defaults(OneNode("x", OneLeaf("q", Plain)))
  {
    var d := LeafReplacedByNode();
    defaults, params := Defaults(OneNode("x", OneLeaf("q", Plain))), d.parameters;
    NodeDefault("x", "q");
    if Has(params, ["x", "q"]) { AncestorsAreBranches(params, ["x"], ["x", "q"]); }
  }

  // Removing these injections does not remove the leaf x.
  method LeafOutlivesItsSchema() returns (params: Config, full: Schema)
    ensures full == Empty() && LeafAt(params, ["x"]) == Some(Scalar("0"))
  {
    var d := LeafReplacedByNode();
    ghost var l, before := d.Layers(), d.parameters;
    ghost var cleared, added := d.UpdateSchema(Empty());
    params, full := d.parameters, d.fullSchema;
    MergeEmpty<Attrs, Attrs>(Empty());
    assert Find(l.injected, ["x"]).value == Branch(OneLeaf("q", Plain), Plain);
    assert HasBranch(l.injected, ["x"]) && "q" in OneLeaf("q", Plain).m;
    PathsAreTips(before, ["x"]);
    assert Unreached(l.injected, before, ["x"]);
    LeftLeafKeepsValue(l, Empty(), before, cleared, added, ["x"]);
  }

  // A slot with content, in a node m
  function SlotInNode(): Schema {
    OneNode("m", Single("s", Branch(OneLeaf("c", Plain), Plain.(slot := true))))
  }

  lemma SlotHasNoDefaults()
    ensures ["m"] in Paths(Defaults(SlotInNode())) && !HasLeaf(Defaults(SlotInNode()), ["m"])
    ensures HasBranch(SlotInNode(), ["m"]) && !IsEmptyNode(SlotInNode(), ["m"])
    ensures forall k :: ["m"] + [k] !in Paths(SlotInNode())
  {
    var inner := Single("s", Branch(OneLeaf("c", Plain), Plain.(slot := true)));
    var s := SlotInNode();
    assert Defaults(inner).m == map[];
    assert Find(Defaults(s), ["m"]) == Some(DefaultNode(Branch(inner, Plain)));
    PathsAreTips(Defaults(s), ["m"]);
    assert Find(s, ["m"]) == Some(Branch(inner, Plain)) && "s" in inner.m;
    forall k
      ensures ["m"] + [k] !in Paths(s)
    {
      PathsAreTips(s, ["m"] + [k]);
      FindBelow(s, ["m"], [k]);
      if k == "s" { assert Find(inner, [k]).value.sub.m == OneLeaf("c", Plain).m && "c" in OneLeaf("c", Plain).m; }
    }
  }

  method InjectSlot() returns (d: Device)
    ensures fresh(d) && Stacked(d.Layers()) && d.staticSchema == Empty()
    ensures d.injectedSchema == d.fullSchema == SlotInNode()
    ensures ["m"] in Paths(d.parameters)
  {
    d := Injected(SlotInNode());
    SlotHasNoDefaults();
    assert Spared(Defaults(SlotInNode()), {}, ["m"]);
  }

  // A slot gets no parameter, so that erasing its content never reaches the empty node
  // that holds it in the parameters: the node outlives the schema of the slot.
  method NodeOutlivesItsSlot() returns (params: Config, full: Schema)
    ensures full == Empty() && Has(params, ["m"])
  {
    var d := InjectSlot();
    ghost var l, before := d.Layers(), d.parameters;
    ghost var cleared, added := d.UpdateSchema(Empty());
    params, full := d.parameters, d.fullSchema;
    MergeEmpty<Attrs, Attrs>(Empty());
    SlotHasNoDefaults();
    assert Unreached(l.injected, before, ["m"]) && Dropped(l, Empty(), ["m"]);
    assert ["m"] <= ["m"];
    DroppedPathOutlastsUpdate(l, Empty(), before, cleared, added, ["m"]);
  }

  const NoDefault: Attrs := Plain.(default := None)

  // A leaf x without default, injected over a node x with a parameter x.p, leaves that
  // parameter where it is.
  method NodeReplacedByLeaf() returns (d: Device)
    ensures fresh(d) && d.fullSchema == OneLeaf("x", NoDefault)
    ensures LeafAt(d.parameters, ["x", "p"]) == Some(Scalar("0"))
  {
    var node, leaf := OneNode("x", OneLeaf("p", Plain)), OneLeaf("x", NoDefault);
    d := Injected(node);
    NodeDefault("x", "p");
    ghost var first := d.parameters;
    assert LeafAt(first, ["x", "p"]) == Some(Scalar("0"));
    ghost var added := d.AppendSchema(leaf);
    OneReplaces("x", Branch(OneLeaf("p", Plain), Plain), Leaf(NoDefault));
    assert Defaults(leaf).m == map[];
    NothingAdded(leaf, node, added);
    MergeEmpty(first);
  }

  // The parameters are then not aligned with the full schema, and a leaf injected below
  // the leaf x holds its default, which it had all along.
  method NewLeafHeldItsDefault() returns (full: Schema, before: Config, after: Config)
    ensures HasLeaf(full, ["x"]) && !HasLeaf(full, ["x", "p"]) && !Aligned(full, before)
    ensures LeafAt(before, ["x", "p"]) == LeafAt(after, ["x", "p"]) == Some(Scalar("0"))
  {
    var node := OneNode("x", OneLeaf("p", Plain));
    var d := NodeReplacedByLeaf();
    full, before := d.fullSchema, d.parameters;
    assert Find(full, ["x"]) == Some(Leaf(NoDefault));
    NodeDefault("x", "p");
    ghost var added := d.AppendSchema(node);
    after := d.parameters;
    AppendedLeafHoldsDefault(node, full, before, added, ["x", "p"]);
  }

  lemma NodeDefault(k: string, p: string)
    ensures LeafAt(Defaults(OneNode(k, OneLeaf(p, Plain))), [k, p]) == Some(Scalar("0"))
  {
    var defaults := Defaults(OneNode(k, OneLeaf(p, Plain)));
    assert defaults.m[k] == DefaultNode(Branch(OneLeaf(p, Plain), Plain));
    assert [k, p][1..] == [p];
    assert Find(Defaults(OneLeaf(p, Plain)), [p]) == Some(Leaf(Scalar("0")));
  }

  lemma NothingAdded(s: Schema, full: Schema, added: Config)
    requires Stripped(Defaults(s), LeavesOf(full), added) && Defaults(s) == Empty()
    ensures added == Empty()
  {
    if k :| k in added.m {
      StrippedAt(Defaults(s), LeavesOf(full), added, [k]);
    }
    assert added.m == map[];
  }

  // Replacing the only leaf of an injected node by one without default loses the node,
  // although no path changes its kind and there are no slots.
  method NodeLostOnUpdate() returns (previous: Schema, full: Schema, params: Config)
    ensures SameKinds(previous, full) && SlotsAreBare(full)
    ensures !Aligned(full, params) && HasBranch(full, ["z"]) && !Has(params, ["z"])
  {
    var first, second := OneNode("z", OneLeaf("d", Plain)), OneNode("z", OneLeaf("x", NoDefault));
    var d := Injected(first);
    previous := d.fullSchema;
    ghost var l, before := d.Layers(), d.parameters;
    ghost var cleared, added := d.UpdateSchema(second);
    full, params := d.fullSchema, d.parameters;
    MergeEmpty(second);
    OneLeafInNode("z", "d", Plain);
    OneLeafInNode("z", "x", NoDefault);
    SameNodeOtherLeaf();
    NothingOfNode(l, before, cleared, added);
    MergeFind(cleared, added, ["z"]);
    assert HasBranch(full, ["z"]) && !IsEmptyNode(full, ["z"]);
  }

  // The paths of a schema of one leaf in one node
  lemma OneLeafInNode(k: string, p: string, a: Attrs)
    ensures var s := OneNode(k, OneLeaf(p, a));
            && HasBranch(s, [k]) && !IsEmptyNode(s, [k]) && !AttrsAt(s, [k]).slot
            && HasLeaf(s, [k, p])
            && forall q :: Has(s, q) ==> q == [k] || q == [k, p]
  {
    var s := OneNode(k, OneLeaf(p, a));
    assert Find(s, [k]) == Some(Branch(OneLeaf(p, a), Plain)) && p in OneLeaf(p, a).m;
    assert [k, p][1..] == [p] && Find(OneLeaf(p, a), [p]) == Some(Leaf(a));
    forall q | Has(s, q)
      ensures q == [k] || q == [k, p]
    {
      if |q| > 1 {
        assert Find(s, q) == Find(OneLeaf(p, a), q[1..]) && q[1..][0] == p;
      }
    }
  }

  lemma SameNodeOtherLeaf()
    ensures SameKinds(OneNode("z", OneLeaf("d", Plain)), OneNode("z", OneLeaf("x", NoDefault)))
    ensures SlotsAreBare(OneNode("z", OneLeaf("x", NoDefault)))
  {
    OneLeafInNode("z", "d", Plain);
    OneLeafInNode("z", "x", NoDefault);
    var s := OneNode("z", OneLeaf("x", NoDefault));
    forall p | HasBranch(s, p)
      ensures !AttrsAt(s, p).slot
    {
      assert Has(s, p);
    }
  }

  lemma NothingOfNode(l: Layers, before: Config, cleared: Config, added: Config)
    requires l.declared == Empty() && l.injected == l.full == OneNode("z", OneLeaf("d", Plain))
    requires Stripped(Defaults(l.full), {}, before)
    requires Cleared(before, l.declared,
                     Doomed(l.declared, l.injected, OneNode("z", OneLeaf("x", NoDefault))), cleared)
    requires Stripped(Defaults(OneNode("z", OneLeaf("x", NoDefault))), LeavesOf(l.full), added)
    ensures !Has(cleared, ["z"]) && !Has(added, ["z"])
  {
    var first, second := l.full, OneNode("z", OneLeaf("x", NoDefault));
    var gone := Doomed(l.declared, l.injected, second);
    OneLeafInNode("z", "d", Plain);
    OneLeafInNode("z", "x", NoDefault);
    PathsAreTips(first, ["z", "d"]);
    assert ["z", "d"] in gone && ["z", "d"] in LeavesOf(first);
    assert ["z", "d"][..1] == ["z"];
    ClearedHas(before, l.declared, gone, cleared, ["z"]);
    forall x | Spared(before, gone, x) && ["z"] <= x
      ensures false
    {
      PathsAreTips(before, x);
      StrippedAt(Defaults(first), {}, before, x);
      DefaultsAt(first, x);
    }
    StrippedAt(Defaults(second), LeavesOf(first), added, ["z"]);
    forall x | Spared(Defaults(second), LeavesOf(first), x) && ["z"] <= x
      ensures false
    {
      PathsAreTips(Defaults(second), x);
      DefaultsAt(second, x);
    }
  }
}
