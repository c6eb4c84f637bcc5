// What the schema operations do to the parameters of a device: injecting defaults for
// what is new, and clearing what a previous injection left behind.

module Configuration {
  import opened Options
  import opened HashTree
  import opened SchemaLayers

  type Config = Hash<Value, ()>

  // ----- defaults of a schema, as Validator::validate injects them into an empty Hash -----

  function Defaults(s: Schema): Config {
    Hash(map k | k in s.m && HasDefaults(s.m[k]) :: DefaultNode(s.m[k]))
  }

  predicate HasDefaults(n: Node<Attrs, Attrs>) {
    match n
    case Leaf(a) => a.default.Some? && !a.mandatory
    case Branch(_, a) => !a.slot
  }

  function DefaultNode(n: Node<Attrs, Attrs>): Node<Value, ()>
    requires HasDefaults(n)
  {
    match n
    case Leaf(a) => Leaf(a.default.value)
    case Branch(sub, _) => Branch(Defaults(sub), ())
  }

  // Defaults live at paths of the schema, as leaves where it has leaves, and not at slots.
  ghost predicate Fits(s: Schema, c: Config) {
    forall p :: Has(c, p) ==>
      Has(s, p) && HasLeaf(s, p) == HasLeaf(c, p) && (HasBranch(s, p) ==> !AttrsAt(s, p).slot)
  }

  lemma {:induction false} DefaultsAt(s: Schema, p: Path)
    requires Has(Defaults(s), p)
    ensures Has(s, p) && HasLeaf(s, p) == HasLeaf(Defaults(s), p)
    ensures HasBranch(s, p) ==> !AttrsAt(s, p).slot
    ensures HasLeaf(s, p) ==> LeafAt(Defaults(s), p) == AttrsAt(s, p).default && !AttrsAt(s, p).mandatory
    decreases p
  {
    assert Defaults(s).m[p[0]] == DefaultNode(s.m[p[0]]);
    if |p| > 1 {
      DefaultsAt(s.m[p[0]].sub, p[1..]);
    }
  }

  lemma DefaultsFit(s: Schema)
    ensures Fits(s, Defaults(s))
  {
    forall p | Has(Defaults(s), p)
      ensures Has(s, p) && HasLeaf(s, p) == HasLeaf(Defaults(s), p) && (HasBranch(s, p) ==> !AttrsAt(s, p).slot)
    {
      DefaultsAt(s, p);
    }
  }

  // Every optional leaf with a default has it injected, unless it hides below a slot.
  lemma {:induction false} DefaultsAreInjected(s: Schema, p: Path)
    requires HasLeaf(s, p) && AttrsAt(s, p).default.Some? && !AttrsAt(s, p).mandatory
    requires forall q: Path :: q != [] && q < p && HasBranch(s, q) ==> !AttrsAt(s, q).slot
    ensures LeafAt(Defaults(s), p) == AttrsAt(s, p).default
    decreases p
  {
    if |p| > 1 {
      assert [p[0]] < p && HasBranch(s, [p[0]]);
      var sub := s.m[p[0]].sub;
      forall q: Path | q != [] && q < p[1..] && HasBranch(sub, q)
        ensures !AttrsAt(sub, q).slot
      {
        FindBelow(s, [p[0]], q);
        assert [p[0]] + q < p && HasBranch(s, [p[0]] + q);
      }
      DefaultsAreInjected(sub, p[1..]);
    }
  }

  // So has every node, also an empty one, that is no slot and below none.
  lemma {:induction false} DefaultNodesAreInjected(s: Schema, p: Path)
    requires HasBranch(s, p) && !AttrsAt(s, p).slot
    requires forall q: Path :: q != [] && q < p && HasBranch(s, q) ==> !AttrsAt(s, q).slot
    ensures HasBranch(Defaults(s), p)
    decreases p
  {
    if |p| > 1 {
      assert [p[0]] < p && HasBranch(s, [p[0]]);
      var sub := s.m[p[0]].sub;
      forall q: Path | q != [] && q < p[1..] && HasBranch(sub, q)
        ensures !AttrsAt(sub, q).slot
      {
        FindBelow(s, [p[0]], q);
        assert [p[0]] + q < p && HasBranch(s, [p[0]] + q);
      }
      DefaultNodesAreInjected(sub, p[1..]);
      assert Defaults(s).m[p[0]] == DefaultNode(s.m[p[0]]);
    } else {
      assert Defaults(s).m[p[0]] == DefaultNode(s.m[p[0]]);
    }
  }

  // ----- m_validatorIntern.validate: no defaults, no additional keys, no missing keys -----

  predicate Accepts(s: Schema, c: Config)
    decreases c
  {
    forall k :: k in c.m ==> k in s.m && AcceptsNode(s.m[k], c.m[k])
  }

  predicate AcceptsNode(n: Node<Attrs, Attrs>, c: Node<Value, ()>)
    decreases c
  {
    match (n, c)
    case (Leaf(_), Leaf(_)) => true
    case (Branch(sub, a), Branch(csub, _)) => if a.slot then csub == Empty() else Accepts(sub, csub)
    case _ => false
  }

  function Validated(s: Schema, c: Config): Config
    requires Accepts(s, c)
    decreases c
  {
    Hash(map k | k in c.m && !(s.m[k].Branch? && s.m[k].attrs.slot) :: ValidatedNode(s.m[k], c.m[k]))
  }

  function ValidatedNode(n: Node<Attrs, Attrs>, c: Node<Value, ()>): Node<Value, ()>
    requires AcceptsNode(n, c) && !(n.Branch? && n.attrs.slot)
    decreases c
  {
    match c
    case Leaf(_) => c
    case Branch(csub, a) => Branch(Validated(n.sub, csub), a)
  }

  // What fits a schema passes its validation unchanged.
  lemma {:induction false} FittingPasses(s: Schema, c: Config)
    requires Fits(s, c)
    ensures Accepts(s, c) && Validated(s, c) == c
    decreases c
  {
    forall k | k in c.m
      ensures k in s.m && AcceptsNode(s.m[k], c.m[k]) && !(s.m[k].Branch? && s.m[k].attrs.slot)
      ensures c.m[k] == ValidatedNode(s.m[k], c.m[k])
    {
      assert Has(c, [k]);
      assert HasLeaf(s, [k]) == HasLeaf(c, [k]);
      if c.m[k].Branch? {
        assert HasBranch(s, [k]);
        FitsBelow(s, c, k);
        FittingPasses(s.m[k].sub, c.m[k].sub);
      }
    }
    SameEntries(Validated(s, c), c);
  }

  // What passes keeps all its paths and values, but for the empty nodes at slots.
  lemma {:induction false} ValidatedKeeps(s: Schema, c: Config, p: Path)
    requires Accepts(s, c) && p != []
    ensures LeafAt(Validated(s, c), p) == LeafAt(c, p)
    ensures Has(Validated(s, c), p) <==> Has(c, p) && (HasBranch(s, p) ==> !AttrsAt(s, p).slot)
    decreases p
  {
    var k := p[0];
    if k in c.m {
      assert AcceptsNode(s.m[k], c.m[k]);
      if !(s.m[k].Branch? && s.m[k].attrs.slot) {
        assert Validated(s, c).m[k] == ValidatedNode(s.m[k], c.m[k]);
        if |p| > 1 && c.m[k].Branch? {
          ValidatedKeeps(s.m[k].sub, c.m[k].sub, p[1..]);
        }
      } else if |p| > 1 {
        assert Find(c, p) == None;
      }
    }
  }

  lemma FitsBelow(s: Schema, c: Config, k: string)
    requires Fits(s, c) && k in c.m && c.m[k].Branch? && k in s.m && s.m[k].Branch?
    ensures Fits(s.m[k].sub, c.m[k].sub)
  {
    forall p | Has(c.m[k].sub, p)
      ensures Has(s.m[k].sub, p) && HasLeaf(s.m[k].sub, p) == HasLeaf(c.m[k].sub, p)
      ensures HasBranch(s.m[k].sub, p) ==> !AttrsAt(s.m[k].sub, p).slot
    {
      FindBelow(s, [k], p);
      FindBelow(c, [k], p);
      assert Has(c, [k] + p);
    }
  }

  // Some node above p is a slot.
  ghost predicate BelowSlot(s: Schema, p: Path) {
    exists q: Path :: q < p && HasBranch(s, q) && AttrsAt(s, q).slot
  }

  ghost predicate Known(s: Schema, c: Config, p: Path) {
    Has(s, p) && HasLeaf(s, p) == HasLeaf(c, p) && !BelowSlot(s, p)
  }

  lemma BelowSlotBelow(s: Schema, k: string, p: Path)
    requires k in s.m && s.m[k].Branch? && p != []
    ensures BelowSlot(s, [k] + p) <==> s.m[k].attrs.slot || BelowSlot(s.m[k].sub, p)
  {
    var all := [k] + p;
    assert all[1..] == p;
    if s.m[k].attrs.slot {
      assert [k] < all && HasBranch(s, [k]) && AttrsAt(s, [k]).slot;
    }
    if q: Path :| q < p && HasBranch(s.m[k].sub, q) && AttrsAt(s.m[k].sub, q).slot {
      FindBelow(s, [k], q);
      assert [k] + q < all && HasBranch(s, [k] + q) && AttrsAt(s, [k] + q).slot;
    }
    if q: Path :| q < all && HasBranch(s, q) && AttrsAt(s, q).slot {
      assert q[0] == all[0] == k;
      if |q| > 1 {
        var r := q[1..];
        assert q == [k] + r;
        FindBelow(s, [k], r);
        assert r < p && HasBranch(s.m[k].sub, r) && AttrsAt(s.m[k].sub, r).slot;
      } else {
        assert q == [k];
      }
    }
  }

  // Validation accepts exactly the updates whose paths are all known, as leaf or node as
  // in the schema, with nothing below a slot.
  lemma {:induction false} AcceptsExactlyTheKnown(s: Schema, c: Config)
    ensures Accepts(s, c) <==> forall p :: Has(c, p) ==> Known(s, c, p)
    decreases c
  {
    if Accepts(s, c) {
      forall p | Has(c, p)
        ensures Known(s, c, p)
      {
        AcceptedIsKnown(s, c, p);
      }
    } else {
      var k :| k in c.m && !(k in s.m && AcceptsNode(s.m[k], c.m[k]));
      assert Has(c, [k]);
      if k in s.m && s.m[k].Branch? && c.m[k].Branch? {
        var sub, csub := s.m[k].sub, c.m[k].sub;
        AcceptsExactlyTheKnown(sub, csub);
        var q: Path;
        if s.m[k].attrs.slot {
          var child :| child in csub.m;
          q := [child];
        } else {
          q :| Has(csub, q) && !Known(sub, csub, q);
        }
        FindBelow(s, [k], q);
        FindBelow(c, [k], q);
        BelowSlotBelow(s, k, q);
        assert Has(c, [k] + q) && !Known(s, c, [k] + q);
      } else {
        assert !Known(s, c, [k]);
      }
    }
  }

  lemma {:induction false} AcceptedIsKnown(s: Schema, c: Config, p: Path)
    requires Accepts(s, c) && Has(c, p)
    ensures Known(s, c, p)
    decreases p
  {
    var k := p[0];
    assert AcceptsNode(s.m[k], c.m[k]);
    if |p| > 1 {
      assert p == [k] + p[1..];
      AcceptedIsKnown(s.m[k].sub, c.m[k].sub, p[1..]);
      BelowSlotBelow(s, k, p[1..]);
    }
  }

  // ----- erasing a set of paths -----

  ghost predicate Under(paths: set<Path>, q: Path) {
    exists d :: d in paths && d <= q
  }

  // q directly holds an erased path.
  ghost predicate ParentOf(gone: set<Path>, q: Path) {
    exists d :: d in gone && d != [] && q == d[..|d| - 1]
  }

  // Which of the paths of a configuration outlast the erasing of others: those that are
  // not among or below them, but no empty node that should have held one of them.
  ghost predicate Spared(before: Config, gone: set<Path>, x: Path) {
    x in Paths(before) && !Under(gone, x) && (HasLeaf(before, x) || !ParentOf(gone, x))
  }

  // ----- stripping: erasing the previous leaves from the added defaults -----

  ghost predicate Stripped(before: Config, paths: set<Path>, after: Config) {
    && (forall q :: q in Paths(after) <==> Spared(before, paths, q))
    && (forall q :: LeafAt(after, q) == if Under(paths, q) then None else LeafAt(before, q))
  }

  lemma StrippedNothing(c: Config)
    ensures Stripped(c, {}, c)
  {}

  lemma StripOneMore(before: Config, paths: set<Path>, after: Config, p: Path)
    requires Stripped(before, paths, after) && p != []
    ensures Stripped(before, paths + {p}, ErasePath(after, p))
  {
    var erased := ErasePath(after, p);
    forall q
      ensures q in Paths(erased) <==> Spared(before, paths + {p}, q)
      ensures LeafAt(erased, q) == if Under(paths + {p}, q) then None else LeafAt(before, q)
    {
      OneMore(paths, p, q);
      ErasedPaths(after, p, q);
      if p <= q { EraseRemoves(after, p, q); } else { EraseKeepsLeaves(after, p, q); }
      assert HasLeaf(after, q) <==> LeafAt(after, q).Some?;
      assert HasLeaf(before, q) <==> LeafAt(before, q).Some?;
    }
  }

  lemma OneMore(paths: set<Path>, p: Path, q: Path)
    requires p != []
    ensures Under(paths + {p}, q) <==> Under(paths, q) || p <= q
    ensures AncestorOf(paths + {p}, q) <==> AncestorOf(paths, q) || q < p
    ensures ParentOf(paths + {p}, q) <==> ParentOf(paths, q) || q == p[..|p| - 1]
  {
    var all := paths + {p};
    assert p in all && forall d :: d in paths ==> d in all;
  }

  // What stripping says of a single path
  lemma StrippedAt(before: Config, paths: set<Path>, after: Config, q: Path)
    requires Stripped(before, paths, after) && q != []
    ensures Has(after, q) <==> exists x :: Spared(before, paths, x) && q <= x
    ensures Under(paths, q) ==> !Has(after, q)
    ensures Has(after, q) ==> Has(before, q) && HasLeaf(after, q) == HasLeaf(before, q)
  {
    if Has(after, q) {
      var x := SomeTip(after, q);
      assert Spared(before, paths, x);
      HasAboveTip(before, q, x);
      if d :| d in paths && d <= q {
        PrefixOfPrefix(d, q, x);
      }
      assert LeafAt(after, q) == LeafAt(before, q);
      assert HasLeaf(after, q) == LeafAt(after, q).Some? == LeafAt(before, q).Some?;
    }
    forall x | Spared(before, paths, x) && q <= x
      ensures Has(after, q)
    {
      HasAboveTip(after, q, x);
    }
  }

  // The leaves of the full schema before the change
  function LeavesOf(s: Schema): set<Path> {
    set p | p in Paths(s) && HasLeaf(s, p)
  }

  lemma LeavesOfAreTheLeaves(s: Schema, p: Path)
    ensures p in LeavesOf(s) <==> HasLeaf(s, p)
  {
    PathsAreTips(s, p);
  }

  // ----- clearing: erasing old injections and restoring static nodes -----

  // What updateSchema erases from the parameters
  function Doomed(declared: Schema, injected: Schema, next: Schema): set<Path> {
    set p | p in Paths(injected) && !(Has(declared, p) || Has(next, p))
  }

  // The inner loop: the longest proper prefix, of at most n keys, that is static but gone;
  // 0 if there is none
  function RestoreLength(declared: Schema, c: Config, path: Path, n: nat): (i: nat)
    requires n <= |path|
    ensures i <= n
    ensures i > 0 ==> Has(declared, path[..i]) && !Has(c, path[..i])
    ensures forall j :: i < j <= n && Has(declared, path[..j]) ==> Has(c, path[..j])
  {
    if n == 0 || (Has(declared, path[..n]) && !Has(c, path[..n])) then n
    else RestoreLength(declared, c, path, n - 1)
  }

  // That prefix is set again as an empty node.
  function Restored(declared: Schema, c: Config, path: Path): Config
    requires path != []
  {
    var i := RestoreLength(declared, c, path, |path| - 1);
    if i == 0 then c else SetEmpty(c, path[..i], ())
  }

  // q lies strictly above a static ancestor of an erased path.
  ghost predicate AboveStatic(declared: Schema, gone: set<Path>, q: Path) {
    exists d, n: nat :: d in gone && n < |d| && q < d[..n] && Has(declared, d[..n])
  }

  ghost predicate AncestorOf(gone: set<Path>, q: Path) {
    exists d :: d in gone && q < d
  }

  // What clearing leaves at q: static paths stay, or come back above what is erased, and
  // of all others exactly the spared ones stay.
  ghost predicate ClearedAt(before: Config, declared: Schema, gone: set<Path>, after: Config, q: Path) {
    && LeafAt(after, q) == (if Under(gone, q) || AboveStatic(declared, gone, q) then None else LeafAt(before, q))
    && (Has(declared, q) ==> (Has(after, q) <==> Has(before, q) || AncestorOf(gone, q)))
    && (!Has(declared, q) ==> (q in Paths(after) <==> Spared(before, gone, q)))
  }

  ghost predicate Cleared(before: Config, declared: Schema, gone: set<Path>, after: Config) {
    forall q :: ClearedAt(before, declared, gone, after, q)
  }

  lemma ClearedNothing(c: Config, declared: Schema)
    ensures Cleared(c, declared, {}, c)
  {}

  // One erased path with its restoration
  lemma ClearOneAt(declared: Schema, c: Config, d: Path, q: Path)
    requires d != [] && !Has(declared, d)
    ensures ClearedAt(c, declared, {d}, Restored(declared, ErasePath(c, d), d), q)
  {
    var erased := ErasePath(c, d);
    var after := Restored(declared, erased, d);
    OneMore({}, d, q);
    assert {} + {d} == {d};
    ErasedPaths(c, d, q);
    PathsAreTips(erased, q);
    PathsAreTips(after, q);
    if d <= q {
      EraseRemoves(c, d, q);
      if Has(declared, q) && q != d { AncestorsAreBranches(declared, d, q); }
    } else {
      EraseKeepsLeaves(c, d, q);
      if !(q <= d) { EraseKeepsOthers(c, d, q); }
    }
    if Has(erased, q) { EraseAddsNothing(c, d, q); }
    RestoredAt(declared, erased, d, q);
    if AboveStatic(declared, {d}, q) {
      var n: nat :| n < |d| && q < d[..n] && Has(declared, d[..n]);
      RestoredAt(declared, erased, d, d[..n]);
      if q != [] { AncestorsAreBranches(after, q, d[..n]); }
    }
  }

  // The restoration brings back all static nodes above the erased path, and nothing else.
  lemma RestoredAt(declared: Schema, erased: Config, d: Path, q: Path)
    requires d != []
    ensures var after := Restored(declared, erased, d);
            && (q < d && Has(declared, q) ==> Has(after, q))
            && (Has(after, q) ==> Has(erased, q) || (q < d && Has(declared, q)))
            && (!(q < d && Has(declared, q)) && q != [] ==> Find(after, q) == Find(erased, q))
            && (!AboveStatic(declared, {d}, q) ==> LeafAt(after, q) == LeafAt(erased, q))
  {
    var i := RestoreLength(declared, erased, d, |d| - 1);
    if q < d { assert q == d[..|q|]; }
    if i > 0 && q != [] {
      var p := d[..i];
      SetEmptyFind(erased, p, (), q);
      if q <= p {
        assert p < d && d in {d};
        if q < p { AncestorsAreBranches(declared, q, p); } else { assert q == p; }
      } else if p <= q && Has(erased, q) {
        AncestorsAreBranches(erased, p, q);
      }
    }
  }

  lemma ClearOneMore(before: Config, declared: Schema, gone: set<Path>, c: Config, d: Path)
    requires Cleared(before, declared, gone, c) && d != [] && !Has(declared, d)
    ensures Cleared(before, declared, gone + {d}, Restored(declared, ErasePath(c, d), d))
  {
    var after := Restored(declared, ErasePath(c, d), d);
    forall q
      ensures ClearedAt(before, declared, gone + {d}, after, q)
    {
      ClearOneAt(declared, c, d, q);
      assert ClearedAt(before, declared, gone, c, q);
      OneMore(gone, d, q);
      OneMore({}, d, q);
      assert {} + {d} == {d};
      MoreAboveStatic(declared, gone, d, q);
      assert HasLeaf(c, q) <==> LeafAt(c, q).Some?;
      assert HasLeaf(before, q) <==> LeafAt(before, q).Some?;
    }
  }

  lemma MoreAboveStatic(declared: Schema, gone: set<Path>, d: Path, q: Path)
    ensures AboveStatic(declared, gone + {d}, q) <==> AboveStatic(declared, gone, q) || AboveStatic(declared, {d}, q)
    ensures q != [] && AboveStatic(declared, gone, q) ==> HasBranch(declared, q) && AncestorOf(gone, q)
  {
    var all := gone + {d};
    assert d in all && forall g :: g in gone ==> g in all;
    if AboveStatic(declared, {d}, q) {
      var n: nat :| n < |d| && q < d[..n] && Has(declared, d[..n]);
      assert AboveStatic(declared, all, q);
    }
    if AboveStatic(declared, gone, q) && q != [] {
      var g, n: nat :| g in gone && n < |g| && q < g[..n] && Has(declared, g[..n]);
      AncestorsAreBranches(declared, q, g[..n]);
      assert q < g;
    }
  }

  // Whether q is there after the clearing, from what is known before it
  ghost predicate Kept(params: Config, declared: Schema, gone: set<Path>, q: Path) {
    if Has(declared, q) then Has(params, q) || AncestorOf(gone, q)
    else exists x :: Spared(params, gone, x) && q <= x
  }

  lemma ClearedHas(before: Config, declared: Schema, gone: set<Path>, after: Config, q: Path)
    requires Cleared(before, declared, gone, after) && q != []
    ensures Has(after, q) <==> Kept(before, declared, gone, q)
  {
    assert ClearedAt(before, declared, gone, after, q);
    if !Has(declared, q) {
      if Has(after, q) {
        var x := SomeTip(after, q);
        BelowNonStatic(declared, q, x);
        assert ClearedAt(before, declared, gone, after, x);
        assert Spared(before, gone, x);
      }
      if x :| Spared(before, gone, x) && q <= x {
        BelowNonStatic(declared, q, x);
        assert ClearedAt(before, declared, gone, after, x);
        HasAboveTip(after, q, x);
      }
    }
  }

  lemma BelowNonStatic(declared: Schema, q: Path, x: Path)
    requires q != [] && q <= x && !Has(declared, q)
    ensures !Has(declared, x)
  {
    if Has(declared, x) && x != q { AncestorsAreBranches(declared, q, x); }
  }

  // Every static leaf that had a value keeps it, whatever is cleared.
  lemma StaticLeavesSurvive(before: Config, declared: Schema, gone: set<Path>, after: Config, q: Path)
    requires Cleared(before, declared, gone, after) && HasLeaf(declared, q)
    requires forall g :: g in gone ==> g != [] && !Has(declared, g)
    ensures LeafAt(after, q) == LeafAt(before, q)
  {
    assert ClearedAt(before, declared, gone, after, q);
    if Under(gone, q) {
      var g :| g in gone && g <= q;
      if g != q { AncestorsAreBranches(declared, g, q); }
    }
    if AboveStatic(declared, gone, q) {
      var g, n: nat :| g in gone && n < |g| && q < g[..n] && Has(declared, g[..n]);
      AncestorsAreBranches(declared, q, g[..n]);
    }
  }

  // ----- what is left of the old injection -----

  ghost predicate Dropped(l: Layers, s: Schema, q: Path) {
    Has(l.injected, q) && !Has(l.declared, q) && !Has(s, q)
  }

  // A parameter that erasing the injected paths does not reach: where the injection has a
  // node with content, a leaf, or an empty node all of whose children are missing with
  // everything injected below them; elsewhere, what is beside the injected paths.
  ghost predicate Unreached(injected: Schema, params: Config, x: Path) {
    && x in Paths(params)
    && if HasBranch(injected, x) && !IsEmptyNode(injected, x) then
         HasLeaf(params, x) || forall k :: x + [k] !in Paths(injected)
       else !Under(Paths(injected), x)
  }

  lemma SparedIsUnreached(l: Layers, s: Schema, params: Config, q: Path, x: Path)
    requires Dropped(l, s, q) && q <= x
    ensures Spared(params, Doomed(l.declared, l.injected, s), x) <==> Unreached(l.injected, params, x)
  {
    DoomedBelowDropped(l, s, q, x);
    TipsAround(l.injected, x);
  }

  // Everything injected at or below a dropped path is erased.
  lemma DoomedBelowDropped(l: Layers, s: Schema, q: Path, x: Path)
    requires Dropped(l, s, q) && q <= x
    ensures var tips, gone := Paths(l.injected), Doomed(l.declared, l.injected, s);
            && (Under(gone, x) <==> Under(tips, x))
            && (ParentOf(gone, x) <==> ParentOf(tips, x))
  {
    var tips, gone := Paths(l.injected), Doomed(l.declared, l.injected, s);
    forall d | d in tips && q <= d
      ensures d in gone
    {
      BelowNonStatic(l.declared, q, d);
      BelowNonStatic(s, q, d);
    }
    if d :| d in tips && d <= x {
      PrefixesCompare(d, q, x);
      if d < q { NothingBelowTips(l.injected, d, q); }
    }
    if d :| d in tips && d != [] && x == d[..|d| - 1] {
      PrefixOfPrefix(q, x, d);
    }
  }

  lemma TipsAround(s: Schema, x: Path)
    requires x != []
    ensures HasBranch(s, x) && !IsEmptyNode(s, x) ==> !Under(Paths(s), x)
    ensures ParentOf(Paths(s), x) ==> HasBranch(s, x) && !IsEmptyNode(s, x)
    ensures ParentOf(Paths(s), x) <==> exists k :: x + [k] in Paths(s)
  {
    PathsAreTips(s, x);
    if d :| d in Paths(s) && d <= x {
      if d < x { NothingBelowTips(s, d, x); } else { assert d == x; }
    }
    if d :| d in Paths(s) && d != [] && x == d[..|d| - 1] {
      assert d == x + [d[|x|]];
      PathsAreTips(s, d);
      AncestorsAreBranches(s, x, d);
      EmptyHasNoChild(s, x);
      assert Has(s, x + [d[|x|]]);
    }
    if k :| x + [k] in Paths(s) {
      assert (x + [k])[..|x + [k]| - 1] == x;
    }
  }

  // Exactly which paths outlast the clearing although they are neither static nor injected
  // again: those with an unreached parameter at or below them.
  lemma DroppedPathOutlastsClearing(l: Layers, s: Schema, params: Config, cleared: Config, q: Path)
    requires Cleared(params, l.declared, Doomed(l.declared, l.injected, s), cleared)
    requires Dropped(l, s, q)
    ensures Has(cleared, q) <==> exists x :: Unreached(l.injected, params, x) && q <= x
  {
    var gone := Doomed(l.declared, l.injected, s);
    ClearedHas(params, l.declared, gone, cleared, q);
    if x :| Spared(params, gone, x) && q <= x {
      SparedIsUnreached(l, s, params, q, x);
    }
    if x :| Unreached(l.injected, params, x) && q <= x {
      SparedIsUnreached(l, s, params, q, x);
    }
  }

  // Exactly which of them are left at the end of an update: no new default may have
  // replaced a node above them.
  lemma DroppedPathOutlastsUpdate(l: Layers, s: Schema, params: Config, cleared: Config, added: Config, q: Path)
    requires Stacked(l)
    requires Cleared(params, l.declared, Doomed(l.declared, l.injected, s), cleared)
    requires Stripped(Defaults(s), LeavesOf(l.full), added)
    requires Dropped(l, s, q)
    ensures Has(Merge(cleared, added), q) <==>
            && (exists x :: Unreached(l.injected, params, x) && q <= x)
            && !LeafAbove(Defaults(s), q)
  {
    DroppedPathOutlastsClearing(l, s, params, cleared, q);
    if Has(added, q) { AddedIsInjected(s, l.full, added, q); }
    MergeFind(cleared, added, q);
    forall y | y < q && HasLeaf(Defaults(s), y)
      ensures HasLeaf(added, y)
    {
      if Under(LeavesOf(l.full), y) {
        var d := OldLeaf(l.full, y);
        PrefixOfPrefix(d, y, q);
        InjectedHasNoLeafAbove(l, d, q);
      }
      assert LeafAt(added, y).Some?;
    }
    forall y | y < q && HasLeaf(added, y)
      ensures HasLeaf(Defaults(s), y)
    {
      StrippedAt(Defaults(s), LeavesOf(l.full), added, y);
    }
  }

  // A leaf that is left keeps its value.
  lemma LeftLeafKeepsValue(l: Layers, s: Schema, params: Config, cleared: Config, added: Config, q: Path)
    requires Stacked(l)
    requires Cleared(params, l.declared, Doomed(l.declared, l.injected, s), cleared)
    requires Stripped(Defaults(s), LeavesOf(l.full), added)
    requires Dropped(l, s, q) && Unreached(l.injected, params, q) && HasLeaf(params, q)
    requires !LeafAbove(Defaults(s), q)
    ensures LeafAt(Merge(cleared, added), q) == LeafAt(params, q)
  {
    var gone := Doomed(l.declared, l.injected, s);
    DroppedPathOutlastsUpdate(l, s, params, cleared, added, q);
    SparedIsUnreached(l, s, params, q, q);
    MoreAboveStatic(l.declared, gone, [], q);
    assert ClearedAt(params, l.declared, gone, cleared, q);
    if Has(added, q) { AddedIsInjected(s, l.full, added, q); }
    MergeFind(cleared, added, q);
  }

  // ----- values that stay, defaults that arrive -----

  // A leaf of the full schema before and after an append keeps its value.
  lemma AppendPreservesValues(l: Layers, s: Schema, params: Config, added: Config, q: Path)
    requires Stripped(Defaults(s), LeavesOf(l.full), added)
    requires HasLeaf(l.full, q) && HasLeaf(AfterAppend(l, s).full, q)
    ensures LeafAt(Merge(params, added), q) == LeafAt(params, q)
  {
    AddedSparesOldLeaves(s, l.full, added, q);
    if y: Path :| y < q && HasLeaf(added, y) {
      AddedIsInjected(s, l.full, added, y);
      MergeFind(l.injected, s, y);
      MergeFind(l.full, AfterAppend(l, s).injected, y);
      AncestorsAreBranches(AfterAppend(l, s).full, y, q);
    }
    MergeFind(params, added, q);
  }

  lemma AddedSparesOldLeaves(s: Schema, full: Schema, added: Config, q: Path)
    requires Stripped(Defaults(s), LeavesOf(full), added) && HasLeaf(full, q)
    ensures !Has(added, q)
  {
    LeavesOfAreTheLeaves(full, q);
    assert Under(LeavesOf(full), q);
    StrippedAt(Defaults(s), LeavesOf(full), added, q);
  }

  lemma AddedIsInjected(s: Schema, full: Schema, added: Config, y: Path)
    requires Stripped(Defaults(s), LeavesOf(full), added) && Has(added, y)
    ensures Has(s, y) && HasLeaf(s, y) == HasLeaf(added, y)
    ensures HasBranch(s, y) ==> !AttrsAt(s, y).slot
  {
    StrippedAt(Defaults(s), LeavesOf(full), added, y);
    DefaultsAt(s, y);
  }

  // A leaf of the full schema before and after an update keeps its value, through the
  // clearing and the injection of defaults.
  lemma UpdatePreservesValues(l: Layers, s: Schema, params: Config, cleared: Config, added: Config, q: Path)
    requires Stacked(l)
    requires Cleared(params, l.declared, Doomed(l.declared, l.injected, s), cleared)
    requires Stripped(Defaults(s), LeavesOf(l.full), added)
    requires HasLeaf(l.full, q) && HasLeaf(AfterUpdate(l, s).full, q)
    ensures LeafAt(Merge(cleared, added), q) == LeafAt(params, q)
  {
    MergeHas(l.declared, s, q);
    NotDoomed(l, s, q);
    ClearedKeepsLeaf(l, s, params, cleared, q);
    AddedSparesOldLeaves(s, l.full, added, q);
    if y: Path :| y < q && HasLeaf(added, y) {
      AddedIsInjected(s, l.full, added, y);
      MergeFind(l.declared, s, y);
      AncestorsAreBranches(AfterUpdate(l, s).full, y, q);
    }
    MergeFind(cleared, added, q);
  }

  // Nothing static or injected again is erased.
  lemma NotDoomed(l: Layers, s: Schema, q: Path)
    requires Has(l.declared, q) || Has(s, q)
    ensures !Under(Doomed(l.declared, l.injected, s), q)
  {
    if d :| d in Doomed(l.declared, l.injected, s) && d <= q {
      PathsAreTips(l.injected, d);
      if d != q {
        if Has(s, q) { AncestorsAreBranches(s, d, q); } else { AncestorsAreBranches(l.declared, d, q); }
      }
    }
  }

  // At or below a leaf of the full schema nothing is injected, so that the clearing leaves
  // such a path alone unless it is erased itself.
  lemma ClearedKeepsLeaf(l: Layers, s: Schema, params: Config, cleared: Config, q: Path)
    requires Stacked(l) && (HasLeaf(l.full, q) || LeafAbove(l.full, q))
    requires Cleared(params, l.declared, Doomed(l.declared, l.injected, s), cleared)
    ensures !AncestorOf(Doomed(l.declared, l.injected, s), q)
    ensures !Under(Doomed(l.declared, l.injected, s), q) ==> LeafAt(cleared, q) == LeafAt(params, q)
  {
    var gone := Doomed(l.declared, l.injected, s);
    var p: Path :| p <= q && HasLeaf(l.full, p);
    if d :| d in gone && q < d {
      PathsAreTips(l.injected, d);
      PrefixOfPrefix(p, q, d);
      InjectedHasNoLeafAbove(l, p, d);
    }
    MoreAboveStatic(l.declared, gone, [], q);
    assert ClearedAt(params, l.declared, gone, cleared, q);
  }

  // A new leaf gets its default, except below a path that was a leaf before: there the
  // default is erased, and the parameter stays what it was.
  lemma NewLeafGetsDefault(s: Schema, full: Schema, kept: Config, added: Config, y: Path)
    requires Stripped(Defaults(s), LeavesOf(full), added)
    requires LeafAt(Defaults(s), y).Some? && !HasLeaf(full, y)
    ensures LeafAt(Merge(kept, added), y) == if LeafAbove(full, y) then LeafAt(kept, y) else LeafAt(Defaults(s), y)
  {
    MergeFind(kept, added, y);
    if p: Path :| p < y && HasLeaf(full, p) {
      AddedSparesOldLeaves(s, full, added, p);
      if Has(added, y) { AncestorsAreBranches(added, p, y); }
      DefaultsAt(s, y);
      if x: Path :| x < y && HasLeaf(added, x) {
        AddedIsInjected(s, full, added, x);
        AncestorsAreBranches(s, x, y);
      }
    } else {
      if Under(LeavesOf(full), y) {
        var p := OldLeaf(full, y);
      }
      assert LeafAt(added, y) == LeafAt(Defaults(s), y);
    }
  }

  // So after an append a new leaf holds its default exactly if no path above it was a leaf
  // before, or the parameters held that value there already.
  lemma AppendedLeafHoldsDefault(s: Schema, full: Schema, params: Config, added: Config, y: Path)
    requires Stripped(Defaults(s), LeavesOf(full), added)
    requires LeafAt(Defaults(s), y).Some? && !HasLeaf(full, y)
    ensures LeafAt(Merge(params, added), y) == LeafAt(Defaults(s), y) <==>
            !LeafAbove(full, y) || LeafAt(params, y) == LeafAt(Defaults(s), y)
  {
    NewLeafGetsDefault(s, full, params, added, y);
  }

  // The same after an update: the clearing does not interfere.
  lemma UpdatedLeafHoldsDefault(l: Layers, s: Schema, params: Config, cleared: Config, added: Config, y: Path)
    requires Stacked(l)
    requires Cleared(params, l.declared, Doomed(l.declared, l.injected, s), cleared)
    requires Stripped(Defaults(s), LeavesOf(l.full), added)
    requires LeafAt(Defaults(s), y).Some? && !HasLeaf(l.full, y)
    ensures LeafAt(Merge(cleared, added), y) == LeafAt(Defaults(s), y) <==>
            !LeafAbove(l.full, y) || LeafAt(params, y) == LeafAt(Defaults(s), y)
  {
    NewLeafGetsDefault(s, l.full, cleared, added, y);
    if LeafAbove(l.full, y) {
      DefaultsAt(s, y);
      NotDoomed(l, s, y);
      ClearedKeepsLeaf(l, s, params, cleared, y);
    }
  }

  // The previous leaf at or above a stripped path
  lemma OldLeaf(full: Schema, y: Path) returns (p: Path)
    requires Under(LeavesOf(full), y)
    ensures p <= y && HasLeaf(full, p)
    ensures HasLeaf(full, y) || LeafAbove(full, y)
  {
    p :| p in LeavesOf(full) && p <= y;
    LeavesOfAreTheLeaves(full, p);
    if p != y { assert p < y; }
  }

  lemma InjectedHasNoLeafAbove(l: Layers, p: Path, q: Path)
    requires Stacked(l) && Has(l.injected, q) && p < q
    ensures !HasLeaf(l.full, p)
  {
    assert Has(l.full, q);
    if HasLeaf(l.full, p) { AncestorsAreBranches(l.full, p, q); }
  }

  // The defaults that remain fit the full schema after the change, so that setting them
  // cannot fail for an unknown or misplaced path.
  lemma AddedFitsFull(s: Schema, left: Schema, full: Schema, added: Config)
    requires Stripped(Defaults(s), LeavesOf(full), added)
    ensures Fits(Merge(left, s), added)
  {
    forall p | Has(added, p)
      ensures Has(Merge(left, s), p) && HasLeaf(Merge(left, s), p) == HasLeaf(added, p)
      ensures HasBranch(Merge(left, s), p) ==> !AttrsAt(Merge(left, s), p).slot
    {
      AddedIsInjected(s, full, added, p);
      MergeFind(left, s, p);
    }
  }
}
