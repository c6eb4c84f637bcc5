// Schemas and parameters of a device over whole histories: which injections keep the
// parameters aligned with the full schema, and what follows for updates and defaults.

module DeviceRuns {
  import opened Options
  import opened HashTree
  import opened SchemaLayers
  import opened Configuration

  datatype Snapshot = Snapshot(layers: Layers, params: Config)

  datatype DeviceOp =
    | Change(op: Op)
    | Set(update: Config)

  // One operation of the device; refused updates change nothing.
  ghost predicate Steps(before: Snapshot, op: DeviceOp, after: Snapshot) {
    var l, params := before.layers, before.params;
    match op
    case Set(update) =>
      && after.layers == l
      && after.params == if Accepts(l.full, update) then Merge(params, Validated(l.full, update)) else params
    case Change(c) =>
      && after.layers == AfterOp(l, c)
      && match c
         case Append(s) =>
           exists added :: Stripped(Defaults(s), LeavesOf(l.full), added) && after.params == Merge(params, added)
         case Update(s) =>
           exists cleared, added ::
             && Cleared(params, l.declared, Doomed(l.declared, l.injected, s), cleared)
             && Stripped(Defaults(s), LeavesOf(l.full), added)
             && after.params == Merge(cleared, added)
         case MaxSizes(_, _) => after.params == params
  }

  // The parameters have no path that the schema does not have, nor of another kind, and
  // all its nodes with content.
  ghost predicate Aligned(full: Schema, params: Config) {
    && (forall p :: Has(params, p) ==> Has(full, p) && HasLeaf(params, p) == HasLeaf(full, p))
    && (forall p :: HasBranch(full, p) && !IsEmptyNode(full, p) ==> Has(params, p))
  }

  // Slots hold nothing.
  ghost predicate SlotsAreBare(s: Schema) {
    forall p :: HasBranch(s, p) && AttrsAt(s, p).slot ==> IsEmptyNode(s, p)
  }

  // The defaults of a schema are aligned with it exactly if no slot has content.
  lemma DefaultsAlign(s: Schema)
    ensures Aligned(s, Defaults(s)) <==> SlotsAreBare(s)
  {
    DefaultsFit(s);
    if SlotsAreBare(s) {
      forall p | HasBranch(s, p) && !IsEmptyNode(s, p)
        ensures Has(Defaults(s), p)
      {
        BareNodesArrive(s, p);
      }
    }
  }

  // Nodes that are no slots, and lie below none, are among the defaults.
  lemma {:induction false} BareNodesArrive(s: Schema, p: Path)
    requires SlotsAreBare(s) && HasBranch(s, p) && !AttrsAt(s, p).slot
    ensures Has(Defaults(s), p)
    decreases p
  {
    if |p| > 1 {
      assert p == [p[0]] + p[1..];
      FindBelow(s, [p[0]], p[1..]);
      assert HasBranch(s, [p[0]]) && !IsEmptyNode(s, [p[0]]);
      BareBelow(s, p[0]);
      BareNodesArrive(s.m[p[0]].sub, p[1..]);
      assert Defaults(s).m[p[0]] == DefaultNode(s.m[p[0]]);
    }
  }

  lemma BareBelow(s: Schema, k: string)
    requires SlotsAreBare(s) && k in s.m && s.m[k].Branch?
    ensures SlotsAreBare(s.m[k].sub)
  {
    var sub := s.m[k].sub;
    forall p | HasBranch(sub, p) && AttrsAt(sub, p).slot
      ensures IsEmptyNode(sub, p)
    {
      FindBelow(s, [k], p);
      assert HasBranch(s, [k] + p) && AttrsAt(s, [k] + p).slot;
    }
  }

  ghost predicate AlignedIn(s: Snapshot) {
    Aligned(s.layers.full, s.params)
  }

  // ----- what keeps the parameters aligned -----

  lemma SetKeepsAligned(full: Schema, params: Config, update: Config)
    requires Aligned(full, params) && Accepts(full, update)
    ensures Aligned(full, Merge(params, Validated(full, update)))
  {
    var v := Validated(full, update);
    ValidatedFits(full, update);
    forall p | p != []
      ensures Has(Merge(params, v), p) ==> Has(full, p) && HasLeaf(Merge(params, v), p) == HasLeaf(full, p)
      ensures HasBranch(full, p) && !IsEmptyNode(full, p) ==> Has(Merge(params, v), p)
    {
      MergeFind(params, v, p);
      if y: Path :| y < p && HasLeaf(v, y) {
        assert HasLeaf(full, y);
        if Has(full, p) { AncestorsAreBranches(full, y, p); }
      }
    }
  }

  lemma {:induction false} ValidatedFits(s: Schema, c: Config)
    requires Accepts(s, c)
    ensures forall p :: Has(Validated(s, c), p) ==> Has(s, p) && HasLeaf(s, p) == HasLeaf(Validated(s, c), p)
  {
    forall p | Has(Validated(s, c), p)
      ensures Has(s, p) && HasLeaf(s, p) == HasLeaf(Validated(s, c), p)
    {
      ValidatedAt(s, c, p);
    }
  }

  lemma {:induction false} ValidatedAt(s: Schema, c: Config, p: Path)
    requires Accepts(s, c) && Has(Validated(s, c), p)
    ensures Has(s, p) && HasLeaf(s, p) == HasLeaf(Validated(s, c), p)
    decreases p
  {
    assert AcceptsNode(s.m[p[0]], c.m[p[0]]);
    assert Validated(s, c).m[p[0]] == ValidatedNode(s.m[p[0]], c.m[p[0]]);
    if |p| > 1 {
      ValidatedAt(s.m[p[0]].sub, c.m[p[0]].sub, p[1..]);
    }
  }

  // What is new in the parameters
  ghost predicate Arrives(s: Schema, full: Schema, p: Path) {
    exists x :: Spared(Defaults(s), LeavesOf(full), x) && p <= x
  }

  // A path may change its kind only if nothing is kept there that would be of the old kind
  // afterwards, and a node with content is kept or arrives with the defaults.
  ghost predicate Suits(full: Schema, next: Schema, s: Schema, kept: bool, p: Path) {
    && (HasLeaf(full, p) && HasBranch(next, p) ==> !kept)
    && (HasBranch(full, p) && HasLeaf(next, p) ==> !kept || HasLeaf(Defaults(s), p))
    && (HasBranch(next, p) && !IsEmptyNode(next, p) ==> kept || Arrives(s, full, p))
  }

  // The common part of append and update: what is kept of the parameters, merged with what
  // is left of the defaults
  ghost predicate Injects(full: Schema, next: Schema, s: Schema, kept: Config, added: Config) {
    && Stripped(Defaults(s), LeavesOf(full), added)
    && (forall p :: p != [] ==> Has(s, p) ==> Has(next, p) && HasLeaf(next, p) == HasLeaf(s, p))
    && (forall p :: p != [] ==> LeafAbove(s, p) ==> !Has(next, p))
    && (forall p :: Has(kept, p) ==> Has(full, p) && HasLeaf(full, p) == HasLeaf(kept, p))
    && (forall p :: Has(kept, p) && !Has(next, p) ==> LeafAbove(s, p))
  }

  // The result is aligned with the next schema exactly if all paths suit.
  lemma InjectionAligns(full: Schema, next: Schema, s: Schema, kept: Config, added: Config)
    requires Injects(full, next, s, kept, added)
    ensures Aligned(next, Merge(kept, added)) <==> forall p :: p != [] ==> Suits(full, next, s, Has(kept, p), p)
  {
    if forall p :: p != [] ==> Suits(full, next, s, Has(kept, p), p) {
      forall p | p != []
        ensures Has(Merge(kept, added), p) ==> Has(next, p) && HasLeaf(Merge(kept, added), p) == HasLeaf(next, p)
        ensures HasBranch(next, p) && !IsEmptyNode(next, p) ==> Has(Merge(kept, added), p)
      {
        SuitedIsAligned(full, next, s, kept, added, p);
      }
    }
    if Aligned(next, Merge(kept, added)) {
      forall p | p != []
        ensures Suits(full, next, s, Has(kept, p), p)
      {
        AlignedIsSuited(full, next, s, kept, added, p);
      }
    }
  }

  lemma AddedAt(full: Schema, s: Schema, added: Config, p: Path)
    requires Stripped(Defaults(s), LeavesOf(full), added) && p != []
    ensures Has(added, p) <==> Arrives(s, full, p)
    ensures Has(added, p) ==> Has(s, p) && HasLeaf(s, p) == HasLeaf(added, p)
    ensures HasLeaf(full, p) ==> !Has(added, p)
    ensures HasBranch(full, p) && HasLeaf(Defaults(s), p) ==> HasLeaf(added, p)
    ensures HasLeaf(added, p) ==> HasLeaf(Defaults(s), p)
    ensures LeafAbove(added, p) ==> LeafAbove(s, p)
  {
    StrippedAt(Defaults(s), LeavesOf(full), added, p);
    if Has(added, p) { AddedIsInjected(s, full, added, p); }
    if HasLeaf(full, p) { AddedSparesOldLeaves(s, full, added, p); }
    if HasBranch(full, p) && HasLeaf(Defaults(s), p) {
      if Under(LeavesOf(full), p) {
        var d := OldLeaf(full, p);
        if d != p { AncestorsAreBranches(full, d, p); }
      }
      assert LeafAt(added, p).Some?;
    }
    if y: Path :| y < p && HasLeaf(added, y) {
      AddedIsInjected(s, full, added, y);
    }
  }

  lemma SuitedIsAligned(full: Schema, next: Schema, s: Schema, kept: Config, added: Config, p: Path)
    requires Injects(full, next, s, kept, added) && p != []
    requires forall q :: q != [] ==> Suits(full, next, s, Has(kept, q), q)
    ensures Has(Merge(kept, added), p) ==> Has(next, p) && HasLeaf(Merge(kept, added), p) == HasLeaf(next, p)
    ensures HasBranch(next, p) && !IsEmptyNode(next, p) ==> Has(Merge(kept, added), p)
  {
    MergeFind(kept, added, p);
    AddedAt(full, s, added, p);
    assert Suits(full, next, s, Has(kept, p), p);
    if Has(kept, p) && !Has(next, p) {
      var y: Path :| y < p && HasLeaf(s, y);
      AncestorsAreBranches(kept, y, p);
      assert Suits(full, next, s, Has(kept, y), y);
      AddedAt(full, s, added, y);
      assert LeafAbove(added, p);
    }
  }

  lemma AlignedIsSuited(full: Schema, next: Schema, s: Schema, kept: Config, added: Config, p: Path)
    requires Injects(full, next, s, kept, added) && p != []
    requires Aligned(next, Merge(kept, added))
    ensures Suits(full, next, s, Has(kept, p), p)
  {
    MergeFind(kept, added, p);
    AddedAt(full, s, added, p);
  }

  // An append keeps the parameters aligned exactly if all its paths suit.
  ghost predicate AppendSuits(l: Layers, params: Config, s: Schema) {
    forall p :: p != [] ==> Suits(l.full, AfterAppend(l, s).full, s, Has(params, p), p)
  }

  lemma AppendAligns(l: Layers, s: Schema, params: Config, added: Config)
    requires Stacked(l) && Aligned(l.full, params)
    requires Stripped(Defaults(s), LeavesOf(l.full), added)
    ensures Aligned(AfterAppend(l, s).full, Merge(params, added)) <==> AppendSuits(l, params, s)
  {
    forall p | p != []
      ensures var next := AfterAppend(l, s).full;
              && (Has(s, p) ==> Has(next, p) && HasLeaf(next, p) == HasLeaf(s, p))
              && (LeafAbove(s, p) ==> !Has(next, p))
              && (Has(params, p) && !Has(next, p) ==> LeafAbove(s, p))
    {
      FullAfterAppend(l, s, p);
    }
    InjectionAligns(l.full, AfterAppend(l, s).full, s, params, added);
  }

  // The same for an update, with what the clearing keeps
  ghost predicate UpdateSuits(l: Layers, params: Config, s: Schema) {
    forall p :: p != [] ==>
      Suits(l.full, AfterUpdate(l, s).full, s, Kept(params, l.declared, Doomed(l.declared, l.injected, s), p), p)
  }

  lemma UpdateAligns(l: Layers, s: Schema, params: Config, cleared: Config, added: Config)
    requires Stacked(l) && Aligned(l.full, params)
    requires Cleared(params, l.declared, Doomed(l.declared, l.injected, s), cleared)
    requires Stripped(Defaults(s), LeavesOf(l.full), added)
    ensures Aligned(AfterUpdate(l, s).full, Merge(cleared, added)) <==> UpdateSuits(l, params, s)
  {
    var gone := Doomed(l.declared, l.injected, s);
    forall p | p != []
      ensures Has(cleared, p) <==> Kept(params, l.declared, gone, p)
      ensures Has(cleared, p) ==> Has(l.full, p) && HasLeaf(l.full, p) == HasLeaf(cleared, p)
      ensures Has(cleared, p) && !Has(AfterUpdate(l, s).full, p) ==> LeafAbove(s, p)
      ensures Has(s, p) ==> Has(AfterUpdate(l, s).full, p) && HasLeaf(AfterUpdate(l, s).full, p) == HasLeaf(s, p)
      ensures LeafAbove(s, p) ==> !Has(AfterUpdate(l, s).full, p)
    {
      ClearedHas(params, l.declared, gone, cleared, p);
      MergeFind(l.declared, s, p);
      if Has(cleared, p) {
        ClearedFollows(l, s, params, cleared, p);
        if !Has(l.declared, p) && !Has(s, p) {
          AlignedLeavesNothing(l, s, params, cleared, p);
        }
      }
    }
    InjectionAligns(l.full, AfterUpdate(l, s).full, s, cleared, added);
  }

  // What the clearing keeps or restores follows the previous full schema.
  lemma ClearedFollows(l: Layers, s: Schema, params: Config, cleared: Config, p: Path)
    requires Stacked(l) && Aligned(l.full, params)
    requires Cleared(params, l.declared, Doomed(l.declared, l.injected, s), cleared)
    requires Has(cleared, p)
    ensures Has(l.full, p) && HasLeaf(l.full, p) == HasLeaf(cleared, p)
  {
    var gone := Doomed(l.declared, l.injected, s);
    assert ClearedAt(params, l.declared, gone, cleared, p);
    ClearedHas(params, l.declared, gone, cleared, p);
    if AncestorOf(gone, p) {
      var d :| d in gone && p < d;
      PathsAreTips(l.injected, d);
      AncestorsAreBranches(l.injected, p, d);
    } else if !Has(l.declared, p) {
      var x :| Spared(params, gone, x) && p <= x;
      HasAboveTip(params, p, x);
    }
    if HasLeaf(l.full, p) {
      ClearedKeepsLeaf(l, s, params, cleared, p);
      if d :| d in gone && d <= p { UnderIsGone(l, s, params, cleared, d, p); }
      assert LeafAt(cleared, p) == LeafAt(params, p);
    }
  }

  lemma UnderIsGone(l: Layers, s: Schema, params: Config, cleared: Config, d: Path, p: Path)
    requires Cleared(params, l.declared, Doomed(l.declared, l.injected, s), cleared)
    requires d in Doomed(l.declared, l.injected, s) && d <= p
    ensures !Has(cleared, p)
  {
    var gone := Doomed(l.declared, l.injected, s);
    PathsAreTips(l.injected, d);
    if Has(cleared, p) {
      BelowNonStatic(l.declared, d, p);
      ClearedHas(params, l.declared, gone, cleared, p);
      forall x | Spared(params, gone, x) && p <= x
        ensures false
      {
        PrefixOfPrefix(d, p, x);
      }
    }
  }

  // ----- simple injections -----

  ghost predicate SameKinds(a: Schema, b: Schema) {
    forall p :: Has(a, p) && Has(b, p) ==> HasLeaf(a, p) == HasLeaf(b, p)
  }

  // A node that had no content before arrives with the defaults.
  lemma NewNodeArrives(full: Schema, s: Schema, p: Path)
    requires SameKinds(full, s) && SlotsAreBare(s)
    requires HasBranch(s, p) && !IsEmptyNode(s, p) && (Has(full, p) ==> IsEmptyNode(full, p))
    ensures Arrives(s, full, p)
  {
    BareNodesArrive(s, p);
    var x := SomeTip(Defaults(s), p);
    forall d | HasLeaf(full, d)
      ensures !(d <= x) && !(p < d)
    {
      if p <= d && p != d {
        AncestorsAreBranches(full, p, d);
        PathsAreTips(full, p);
        NothingBelowTips(full, p, d);
      }
      if d <= x {
        PrefixesCompare(d, p, x);
        if |d| < |p| { AncestorsAreBranches(s, d, p); }
      }
    }
    LeavesAround(full, x);
    if ParentOf(LeavesOf(full), x) {
      var d :| HasLeaf(full, d) && x < d;
      PrefixOfPrefix(p, x, d);
    }
    assert Spared(Defaults(s), LeavesOf(full), x);
  }

  lemma LeavesAround(full: Schema, x: Path)
    ensures Under(LeavesOf(full), x) ==> exists d :: HasLeaf(full, d) && d <= x
    ensures ParentOf(LeavesOf(full), x) ==> exists d :: HasLeaf(full, d) && x < d
  {
    if Under(LeavesOf(full), x) {
      var d := OldLeaf(full, x);
    }
    if d :| d in LeavesOf(full) && d != [] && x == d[..|d| - 1] {
      LeavesOfAreTheLeaves(full, d);
      assert x < d;
    }
  }

  // An append is suitable if it changes no path from leaf to node or back and its slots
  // have no content.
  lemma PlainAppendSuits(l: Layers, params: Config, s: Schema)
    requires Stacked(l) && Aligned(l.full, params)
    requires SameKinds(l.full, s) && SlotsAreBare(s)
    ensures AppendSuits(l, params, s)
  {
    var next := AfterAppend(l, s).full;
    forall p | p != []
      ensures Suits(l.full, next, s, Has(params, p), p)
    {
      FullAfterAppend(l, s, p);
      if HasBranch(next, p) && !IsEmptyNode(next, p) && !Has(params, p) {
        EmptyHasNoChild(next, p);
        var k :| Has(next, p + [k]);
        FullAfterAppend(l, s, p + [k]);
        if HasBranch(l.full, p) { EmptyHasNoChild(l.full, p); }
        if Has(l.full, p + [k]) { AncestorsAreBranches(l.full, p, p + [k]); }
        assert Has(s, p + [k]);
        AncestorsAreBranches(s, p, p + [k]);
        EmptyHasNoChild(s, p);
        NewNodeArrives(l.full, s, p);
      }
    }
  }

  // A leaf with a value after an update: one that has a parameter, or a new one with a
  // default
  ghost predicate HasValue(full: Schema, params: Config, s: Schema, x: Path) {
    HasLeaf(s, x) && if HasLeaf(full, x) then Has(params, x) else HasLeaf(Defaults(s), x)
  }

  // Every injected node that had content before has a leaf with a value again.
  ghost predicate NodesHaveValues(l: Layers, params: Config, s: Schema) {
    forall p :: HasBranch(s, p) && HasBranch(l.full, p) && !IsEmptyNode(l.full, p) && !Has(l.declared, p) ==>
      exists x :: HasValue(l.full, params, s, x) && p <= x
  }

  // An update is suitable under the same conditions, if besides the nodes it keeps have
  // values.
  lemma PlainUpdateSuits(l: Layers, params: Config, s: Schema)
    requires Layered(l) && Stacked(l) && Aligned(l.full, params)
    requires SameKinds(l.full, AfterUpdate(l, s).full) && SlotsAreBare(s) && NodesHaveValues(l, params, s)
    ensures UpdateSuits(l, params, s)
  {
    var next := AfterUpdate(l, s).full;
    var gone := Doomed(l.declared, l.injected, s);
    KindsOfInjection(l, s);
    forall p | p != []
      ensures Suits(l.full, next, s, Kept(params, l.declared, gone, p), p)
    {
      if HasBranch(next, p) && !IsEmptyNode(next, p) && !Kept(params, l.declared, gone, p) {
        if HasBranch(l.full, p) && !IsEmptyNode(l.full, p) {
          assert Has(params, p);
          MergeFind(l.declared, s, p);
          NodeKeepsValue(l, params, s, p);
        } else {
          ContentIsInjected(l, s, p);
          NewNodeArrives(l.full, s, p);
        }
      }
    }
  }

  lemma KindsOfInjection(l: Layers, s: Schema)
    requires SameKinds(l.full, AfterUpdate(l, s).full)
    ensures SameKinds(l.full, s)
  {
    forall p | Has(l.full, p) && Has(s, p)
      ensures HasLeaf(l.full, p) == HasLeaf(s, p)
    {
      MergeFind(l.declared, s, p);
    }
  }

  lemma NodeKeepsValue(l: Layers, params: Config, s: Schema, p: Path)
    requires Aligned(l.full, params) && SameKinds(l.full, s) && NodesHaveValues(l, params, s)
    requires HasBranch(s, p) && HasBranch(l.full, p) && !IsEmptyNode(l.full, p) && !Has(l.declared, p)
    ensures Kept(params, l.declared, Doomed(l.declared, l.injected, s), p) || Arrives(s, l.full, p)
  {
    var x :| HasValue(l.full, params, s, x) && p <= x;
    if HasLeaf(l.full, x) {
      NotDoomed(l, s, x);
      PathsAreTips(params, x);
      assert Spared(params, Doomed(l.declared, l.injected, s), x);
    } else {
      PathsAreTips(Defaults(s), x);
      if Under(LeavesOf(l.full), x) {
        var d := OldLeaf(l.full, x);
        if d != x { AncestorsAreBranches(s, d, x); }
      }
      assert Spared(Defaults(s), LeavesOf(l.full), x);
    }
  }

  // Content that a node gains with an update is injected.
  lemma ContentIsInjected(l: Layers, s: Schema, p: Path)
    requires Layered(l) && SameKinds(l.full, AfterUpdate(l, s).full)
    requires var next := AfterUpdate(l, s).full; HasBranch(next, p) && !IsEmptyNode(next, p)
    requires Has(l.full, p) ==> IsEmptyNode(l.full, p)
    ensures HasBranch(s, p) && !IsEmptyNode(s, p)
  {
    var next := AfterUpdate(l, s).full;
    EmptyHasNoChild(next, p);
    var k :| Has(next, p + [k]);
    MergeHas(l.declared, s, p + [k]);
    if Has(l.full, p + [k]) {
      AncestorsAreBranches(l.full, p, p + [k]);
      EmptyHasNoChild(l.full, p);
    }
    if Has(l.declared, p + [k]) {
      StaticIsThere(l, s, p + [k]);
    }
    AncestorsAreBranches(s, p, p + [k]);
    EmptyHasNoChild(s, p);
  }

  // A static path is hidden only by a leaf above it.
  lemma StaticIsThere(l: Layers, s: Schema, p: Path)
    requires Layered(l) && SameKinds(l.full, AfterUpdate(l, s).full)
    requires Has(l.declared, p) && Has(AfterUpdate(l, s).full, p)
    ensures Has(l.full, p)
  {
    SameHasSamePaths(l.declared, l.base, p);
    MergeFind(l.base, l.injected, p);
    if y: Path :| y < p && HasLeaf(l.injected, y) {
      MergeFind(l.base, l.injected, y);
      assert HasLeaf(l.full, y);
      AncestorsAreBranches(AfterUpdate(l, s).full, y, p);
      assert Has(l.full, y) && Has(AfterUpdate(l, s).full, y);
    }
  }

  // ----- what alignment is good for -----

  // From aligned parameters, an update clears all paths that it drops, leaves and nodes.
  lemma AlignedLeavesNothing(l: Layers, s: Schema, params: Config, cleared: Config, q: Path)
    requires Stacked(l) && Aligned(l.full, params)
    requires Cleared(params, l.declared, Doomed(l.declared, l.injected, s), cleared)
    requires q != [] && !Has(l.declared, q) && !Has(s, q)
    ensures !Has(cleared, q)
  {
    if Has(cleared, q) {
      ClearedFollows(l, s, params, cleared, q);
      DroppedPathOutlastsClearing(l, s, params, cleared, q);
      var x :| Unreached(l.injected, params, x) && q <= x;
      AlignedIsReached(l, params, q, x);
    }
  }

  lemma AlignedIsReached(l: Layers, params: Config, q: Path, x: Path)
    requires Stacked(l) && Aligned(l.full, params)
    requires q != [] && !Has(l.declared, q) && q <= x
    ensures !Unreached(l.injected, params, x)
  {
    PathsAreTips(params, x);
    PathsAreTips(l.injected, x);
    BelowNonStatic(l.declared, q, x);
    if Unreached(l.injected, params, x) && HasBranch(l.injected, x) && !IsEmptyNode(l.injected, x) {
      EmptyHasNoChild(l.injected, x);
      EmptyHasNoChild(params, x);
      var k :| Has(l.injected, x + [k]);
      PathsAreTips(l.injected, x + [k]);
      EmptyHasNoChild(l.injected, x + [k]);
      EmptyHasNoChild(l.full, x + [k]);
    }
  }

  // ----- whole histories -----

  ghost predicate Run(states: seq<Snapshot>, ops: seq<DeviceOp>) {
    && |states| == |ops| + 1
    && forall i :: 0 <= i < |ops| ==> Steps(states[i], ops[i], states[i + 1])
  }

  // The operations that keep the parameters aligned: all that set values or maximum sizes,
  // and those injections all of whose paths suit.
  ghost predicate Suitable(before: Snapshot, op: DeviceOp) {
    match op
    case Change(Append(s)) => AppendSuits(before.layers, before.params, s)
    case Change(Update(s)) => UpdateSuits(before.layers, before.params, s)
    case _ => true
  }

  lemma StepAligns(before: Snapshot, op: DeviceOp, after: Snapshot)
    requires Stacked(before.layers) && Aligned(before.layers.full, before.params)
    requires Steps(before, op, after)
    ensures Aligned(after.layers.full, after.params) <==> Suitable(before, op)
  {
    var l, params := before.layers, before.params;
    match op
    case Set(update) =>
      if Accepts(l.full, update) { SetKeepsAligned(l.full, params, update); }
    case Change(c) =>
      match c
      case Append(s) =>
        var added :| Stripped(Defaults(s), LeavesOf(l.full), added) && after.params == Merge(params, added);
        AppendAligns(l, s, params, added);
      case Update(s) =>
        var cleared, added :|
          && Cleared(params, l.declared, Doomed(l.declared, l.injected, s), cleared)
          && Stripped(Defaults(s), LeavesOf(l.full), added)
          && after.params == Merge(cleared, added);
        UpdateAligns(l, s, params, cleared, added);
      case MaxSizes(paths, values) =>
        if CheckedUpFront(l, paths, values) { MaxSizesKeepAligned(l, paths, values, params); }
  }

  lemma MaxSizesKeepAligned(l: Layers, paths: seq<Path>, values: seq<nat>, params: Config)
    requires Stacked(l) && Aligned(l.full, params) && CheckedUpFront(l, paths, values)
    ensures Aligned(AfterMaxSizes(l, paths, values).layers.full, params)
  {
    MaxSizesKeepStacked(l, paths, values);
    var full := AfterMaxSizes(l, paths, values).layers.full;
    forall p | HasBranch(full, p) && !IsEmptyNode(full, p)
      ensures Has(params, p)
    {
      assert Has(full, p) && !HasLeaf(full, p);
      assert Has(l.full, p) && !HasLeaf(l.full, p);
      EmptyHasNoChild(full, p);
      EmptyHasNoChild(l.full, p);
    }
  }

  lemma {:induction false} RunStacks(states: seq<Snapshot>, ops: seq<DeviceOp>, n: nat)
    requires Run(states, ops) && n <= |ops| && Stacked(states[0].layers)
    ensures Stacked(states[n].layers)
    decreases n
  {
    if n > 0 {
      RunStacks(states, ops, n - 1);
      assert Steps(states[n - 1], ops[n - 1], states[n]);
      if ops[n - 1].Change? { OpKeepsStacked(states[n - 1].layers, ops[n - 1].op); }
    }
  }

  ghost predicate AlignedUntil(states: seq<Snapshot>, n: nat)
    requires n < |states|
  {
    forall i :: 0 <= i <= n ==> AlignedIn(states[i])
  }

  ghost predicate AllSuitable(states: seq<Snapshot>, ops: seq<DeviceOp>, n: nat)
    requires n <= |ops| && |states| == |ops| + 1
  {
    forall i :: 0 <= i < n ==> Suitable(states[i], ops[i])
  }

  lemma StepInRunAligns(states: seq<Snapshot>, ops: seq<DeviceOp>, n: nat)
    requires Run(states, ops) && 0 < n <= |ops| && Stacked(states[0].layers)
    ensures AlignedIn(states[n - 1]) ==> (AlignedIn(states[n]) <==> Suitable(states[n - 1], ops[n - 1]))
  {
    RunStacks(states, ops, n - 1);
    assert Steps(states[n - 1], ops[n - 1], states[n]);
    if AlignedIn(states[n - 1]) {
      StepAligns(states[n - 1], ops[n - 1], states[n]);
    }
  }

  lemma OneMoreState(states: seq<Snapshot>, ops: seq<DeviceOp>, n: nat)
    requires 0 < n <= |ops| && |states| == |ops| + 1
    ensures AlignedUntil(states, n) <==> AlignedUntil(states, n - 1) && AlignedIn(states[n])
    ensures AlignedUntil(states, n - 1) ==> AlignedIn(states[n - 1])
    ensures AllSuitable(states, ops, n) <==> AllSuitable(states, ops, n - 1) && Suitable(states[n - 1], ops[n - 1])
  {}

  // Parameters stay aligned over a history exactly as long as every operation is suitable.
  lemma {:induction false} RunAligns(states: seq<Snapshot>, ops: seq<DeviceOp>, n: nat)
    requires Run(states, ops) && n <= |ops|
    requires Stacked(states[0].layers) && AlignedIn(states[0])
    ensures AlignedUntil(states, n) <==> AllSuitable(states, ops, n)
    decreases n
  {
    if n > 0 {
      RunAligns(states, ops, n - 1);
      StepInRunAligns(states, ops, n);
      OneMoreState(states, ops, n);
    }
  }

  // In a history of suitable operations no update leaves a path behind that it drops.
  lemma UpdatesLeaveNothingBehind(states: seq<Snapshot>, ops: seq<DeviceOp>, n: nat, s: Schema, q: Path)
    requires Run(states, ops) && n < |ops| && ops[n] == Change(Update(s))
    requires Stacked(states[0].layers) && AlignedIn(states[0]) && AllSuitable(states, ops, n)
    requires Dropped(states[n].layers, s, q)
    ensures !Has(states[n + 1].params, q)
  {
    RunAligns(states, ops, n);
    RunStacks(states, ops, n);
    var l, params := states[n].layers, states[n].params;
    assert AlignedIn(states[n]) && Steps(states[n], ops[n], states[n + 1]);
    var cleared, added :|
      && Cleared(params, l.declared, Doomed(l.declared, l.injected, s), cleared)
      && Stripped(Defaults(s), LeavesOf(l.full), added)
      && states[n + 1].params == Merge(cleared, added);
    DroppedPathOutlastsUpdate(l, s, params, cleared, added, q);
    DroppedPathOutlastsClearing(l, s, params, cleared, q);
    AlignedLeavesNothing(l, s, params, cleared, q);
  }

  ghost predicate InjectedBy(op: DeviceOp, s: Schema) {
    op == Change(Append(s)) || op == Change(Update(s))
  }

  // In any history whatsoever, a new leaf holds its default after an injection exactly if
  // no path above it was a leaf before or the parameters held that value there already.
  // In a history of suitable operations the latter cannot be.
  lemma NewLeavesHoldDefaults(states: seq<Snapshot>, ops: seq<DeviceOp>, n: nat, s: Schema, y: Path)
    requires Run(states, ops) && n < |ops| && InjectedBy(ops[n], s) && Stacked(states[0].layers)
    requires LeafAt(Defaults(s), y).Some? && !HasLeaf(states[n].layers.full, y)
    ensures LeafAt(states[n + 1].params, y) == LeafAt(Defaults(s), y) <==>
            || !LeafAbove(states[n].layers.full, y)
            || LeafAt(states[n].params, y) == LeafAt(Defaults(s), y)
    ensures AlignedIn(states[0]) && AllSuitable(states, ops, n) && LeafAbove(states[n].layers.full, y) ==>
              !Has(states[n].params, y)
  {
    RunStacks(states, ops, n);
    var l, params := states[n].layers, states[n].params;
    assert Steps(states[n], ops[n], states[n + 1]);
    if ops[n] == Change(Append(s)) {
      var added :| Stripped(Defaults(s), LeavesOf(l.full), added) && states[n + 1].params == Merge(params, added);
      AppendedLeafHoldsDefault(s, l.full, params, added, y);
    } else {
      var cleared, added :|
        && Cleared(params, l.declared, Doomed(l.declared, l.injected, s), cleared)
        && Stripped(Defaults(s), LeavesOf(l.full), added)
        && states[n + 1].params == Merge(cleared, added);
      UpdatedLeafHoldsDefault(l, s, params, cleared, added, y);
    }
    if AlignedIn(states[0]) && AllSuitable(states, ops, n) && Has(params, y) {
      RunAligns(states, ops, n);
      assert AlignedIn(states[n]);
      if p: Path :| p < y && HasLeaf(l.full, p) {
        AncestorsAreBranches(params, p, y);
      }
    }
  }
}
