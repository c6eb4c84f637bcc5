// The three schemas of a device: the static one, what has been injected, and the full
// one that everybody works with, under append, update and max-size changes.

module SchemaLayers {
  import opened Options
  import opened HashTree

  datatype Value = Scalar(text: string) | Vector(items: seq<string>)

  // The attributes of a schema element, as far as the operations look at them
  datatype Attrs = Attrs(
    writable: bool,              // the access mode includes WRITE
    allowedStates: set<string>,  // empty: not restricted
    default: Option<Value>,
    mandatory: bool,
    slot: bool,                  // a node of class "Slot"
    vector: bool,                // the value type is a vector
    minSize: Option<nat>,
    maxSize: Option<nat>,
    maxSizeFixed: bool,          // overwriting the maximum size is restricted
    others: map<string, string>)

  type Schema = Hash<Attrs, Attrs>

  function AttrsOf(n: Node<Attrs, Attrs>): Attrs {
    match n
    case Leaf(a) => a
    case Branch(_, a) => a
  }

  function AttrsAt(s: Schema, p: Path): Attrs
    requires Has(s, p)
  {
    AttrsOf(Find(s, p).value)
  }

  // ----- OVERWRITE_ELEMENT(s).key(p).setNewMaxSize(v).commit() -----

  function WithMaxSize(n: Node<Attrs, Attrs>, v: nat): Node<Attrs, Attrs> {
    match n
    case Leaf(a) => Leaf(a.(maxSize := Some(v)))
    case Branch(sub, a) => Branch(sub, a.(maxSize := Some(v)))
  }

  function SetMaxSize(s: Schema, p: Path, v: nat): Schema
    requires p != []
    decreases p
  {
    if p[0] !in s.m then s
    else if |p| == 1 then Hash(s.m[p[0] := WithMaxSize(s.m[p[0]], v)])
    else
      match s.m[p[0]]
      case Leaf(_) => s
      case Branch(sub, a) => Hash(s.m[p[0] := Branch(SetMaxSize(sub, p[1..], v), a)])
  }

  predicate SizesFit(a: Attrs) {
    !a.vector ||
    match a.default
    case Some(Vector(items)) =>
      && (a.minSize.Some? ==> |items| >= a.minSize.value)
      && (a.maxSize.Some? ==> |items| <= a.maxSize.value)
    case Some(Scalar(_)) => false  // a default of another type cannot be read as a vector
    case None => a.minSize.Some? && a.maxSize.Some? ==> a.minSize.value <= a.maxSize.value
  }

  // commit checks leaves only
  predicate CommitAccepts(n: Node<Attrs, Attrs>) {
    n.Leaf? ==> SizesFit(n.value)
  }

  // Sizes are checked for leaves with vectors: without a default only against each other,
  // with one by its number of items. A default of another type is refused.
  lemma CommitChecksSizes(n: Node<Attrs, Attrs>, v: nat)
    ensures var a := AttrsOf(n);
            CommitAccepts(WithMaxSize(n, v)) <==>
              || n.Branch? || !a.vector
              || (a.default == None && (a.minSize.Some? ==> a.minSize.value <= v))
              || (exists items :: a.default == Some(Vector(items)) && |items| <= v
                                  && (a.minSize.Some? ==> a.minSize.value <= |items|))
  {}

  datatype Overwritten = Overwritten(schema: Schema, ok: bool)

  // The attribute is set before commit checks it, and stays set if commit throws.
  function OverwriteMaxSize(s: Schema, p: Path, v: nat): Overwritten
    requires Has(s, p)
  {
    if AttrsAt(s, p).maxSizeFixed then Overwritten(s, false)
    else Overwritten(SetMaxSize(s, p, v), CommitAccepts(WithMaxSize(Find(s, p).value, v)))
  }

  // ----- the layers -----

  // `declared` is the static schema, as declared by the device class; `base` is that schema
  // with the maximum sizes that were set on purely static paths since the last update (it
  // exists in the proof only).
  datatype Layers = Layers(declared: Schema, base: Schema, injected: Schema, full: Schema)

  ghost predicate Layered(l: Layers) {
    l.full == Merge(l.base, l.injected) && SameButMaxSize(l.declared, l.base)
  }

  ghost predicate SameButMaxSize(a: Schema, b: Schema)
    decreases a
  {
    && (forall k :: k in a.m <==> k in b.m)
    && (forall k :: k in a.m ==> SameNodeButMaxSize(a, b, k))
  }

  ghost predicate SameNodeButMaxSize(a: Schema, b: Schema, k: string)
    requires k in a.m && k in b.m
    decreases a, 0
  {
    && a.m[k].Leaf? == b.m[k].Leaf?
    && AttrsOf(a.m[k]).(maxSize := None) == AttrsOf(b.m[k]).(maxSize := None)
    && (a.m[k].Branch? ==> SameButMaxSize(a.m[k].sub, b.m[k].sub))
  }

  ghost function AfterAppend(l: Layers, s: Schema): Layers {
    var injected := Merge(l.injected, s);
    l.(injected := injected, full := Merge(l.full, injected))
  }

  ghost function AfterUpdate(l: Layers, s: Schema): Layers {
    Layers(l.declared, l.declared, s, Merge(l.declared, s))
  }

  datatype MaxSizeOutcome = MaxSizeOutcome(layers: Layers, ok: bool)

  // One turn of the loop of internalAppendSchemaMultiMaxSize
  ghost function AfterMaxSize(l: Layers, p: Path, v: nat): MaxSizeOutcome
    requires Has(l.full, p)
  {
    var full := OverwriteMaxSize(l.full, p, v);
    if !Has(l.injected, p) then
      var base := if Has(l.base, p) && !AttrsAt(l.full, p).maxSizeFixed then SetMaxSize(l.base, p, v) else l.base;
      MaxSizeOutcome(l.(base := base, full := full.schema), full.ok)
    else if !full.ok then MaxSizeOutcome(l.(full := full.schema), false)
    else
      var injected := OverwriteMaxSize(l.injected, p, v);
      MaxSizeOutcome(l.(injected := injected.schema, full := full.schema), injected.ok)
  }

  ghost function AfterMaxSizes(l: Layers, paths: seq<Path>, values: seq<nat>): MaxSizeOutcome
    requires |paths| == |values|
    requires forall p :: p in paths ==> Has(l.full, p)
    decreases |paths|
  {
    if paths == [] then MaxSizeOutcome(l, true)
    else
      var first := AfterMaxSize(l, paths[0], values[0]);
      if first.ok then
        MaxSizeKeepsPaths(l, paths[0], values[0]);
        AfterMaxSizes(first.layers, paths[1..], values[1..])
      else first
  }

  // ----- setting an attribute moves no paths -----

  lemma {:induction false} SetMaxSizeFind(s: Schema, p: Path, v: nat, q: Path)
    requires p != [] && q != []
    ensures Has(SetMaxSize(s, p, v), q) == Has(s, q)
    ensures HasLeaf(SetMaxSize(s, p, v), q) == HasLeaf(s, q)
    ensures Has(s, q) ==>
              AttrsAt(SetMaxSize(s, p, v), q) == if q == p then AttrsAt(s, q).(maxSize := Some(v)) else AttrsAt(s, q)
    decreases p
  {
    if |p| > 1 && |q| > 1 && p[0] == q[0] && p[0] in s.m && s.m[p[0]].Branch? {
      SetMaxSizeFind(s.m[p[0]].sub, p[1..], v, q[1..]);
      assert p == q <==> p[1..] == q[1..];
    }
  }

  lemma MaxSizeKeepsPaths(l: Layers, p: Path, v: nat)
    requires Has(l.full, p)
    ensures forall q :: Has(AfterMaxSize(l, p, v).layers.full, q) == Has(l.full, q)
  {
    forall q
      ensures Has(AfterMaxSize(l, p, v).layers.full, q) == Has(l.full, q)
    {
      if q != [] { SetMaxSizeFind(l.full, p, v, q); }
    }
  }

  lemma SameIsReflexive(s: Schema)
    ensures SameButMaxSize(s, s)
  {
    forall k | k in s.m
      ensures SameNodeButMaxSize(s, s, k)
    {
      if s.m[k].Branch? { SameIsReflexive(s.m[k].sub); }
    }
  }

  lemma {:induction false} SetMaxSizeKeepsSame(a: Schema, b: Schema, p: Path, v: nat)
    requires p != [] && SameButMaxSize(a, b)
    ensures SameButMaxSize(a, SetMaxSize(b, p, v))
    decreases p
  {
    var b' := SetMaxSize(b, p, v);
    if p[0] in a.m {
      assert SameNodeButMaxSize(a, b, p[0]);
      if |p| > 1 && b.m[p[0]].Branch? {
        SetMaxSizeKeepsSame(a.m[p[0]].sub, b.m[p[0]].sub, p[1..], v);
      }
      assert SameNodeButMaxSize(a, b', p[0]);
    }
    forall k | k in a.m
      ensures SameNodeButMaxSize(a, b', k)
    {
      assert SameNodeButMaxSize(a, b, k);
    }
  }

  lemma {:induction false} SameHasSamePaths(a: Schema, b: Schema, p: Path)
    requires SameButMaxSize(a, b)
    ensures Has(a, p) == Has(b, p) && HasLeaf(a, p) == HasLeaf(b, p)
    decreases p
  {
    if p != [] && p[0] in a.m {
      assert SameNodeButMaxSize(a, b, p[0]);
      if |p| > 1 && a.m[p[0]].Branch? {
        SameHasSamePaths(a.m[p[0]].sub, b.m[p[0]].sub, p[1..]);
      }
    }
  }

  // ----- attributes and merge -----

  // Where the right side has the path, setting the attribute on both sides of the merge's
  // right operand is setting it on the result.
  lemma {:induction false} SetMaxSizeRight(a: Schema, b: Schema, p: Path, v: nat)
    requires Has(b, p)
    ensures SetMaxSize(Merge(a, b), p, v) == Merge(a, SetMaxSize(b, p, v))
    decreases p
  {
    var left, right := SetMaxSize(Merge(a, b), p, v), Merge(a, SetMaxSize(b, p, v));
    forall k | k in a.m || k in b.m
      ensures k in left.m && k in right.m && left.m[k] == right.m[k]
    {
      MergeKey(a, b, k);
      MergeKey(a, SetMaxSize(b, p, v), k);
      if k == p[0] && |p| > 1 && k in a.m && a.m[k].Branch? {
        SetMaxSizeRight(a.m[k].sub, b.m[k].sub, p[1..], v);
      }
    }
    SameEntries(left, right);
  }

  // Where only the left side has it, setting it there is setting it on the result.
  lemma {:induction false} SetMaxSizeLeft(a: Schema, b: Schema, p: Path, v: nat)
    requires p != [] && !Has(b, p) && Has(Merge(a, b), p)
    ensures SetMaxSize(Merge(a, b), p, v) == Merge(SetMaxSize(a, p, v), b)
    decreases p
  {
    var left, right := SetMaxSize(Merge(a, b), p, v), Merge(SetMaxSize(a, p, v), b);
    forall k | k in a.m || k in b.m
      ensures k in left.m && k in right.m && left.m[k] == right.m[k]
    {
      MergeKey(a, b, k);
      MergeKey(SetMaxSize(a, p, v), b, k);
      if k == p[0] && |p| > 1 && k in b.m && b.m[k].Branch? && k in a.m && a.m[k].Branch? {
        SetMaxSizeLeft(a.m[k].sub, b.m[k].sub, p[1..], v);
      }
    }
    SameEntries(left, right);
  }

  lemma {:induction false} SetMaxSizeTwice(s: Schema, p: Path, v: nat)
    requires Has(s, p) && AttrsAt(s, p).maxSize == Some(v)
    ensures SetMaxSize(s, p, v) == s
    decreases p
  {
    if |p| > 1 {
      SetMaxSizeTwice(s.m[p[0]].sub, p[1..], v);
    }
    SameEntries(SetMaxSize(s, p, v), s);
  }

  // ----- what each operation keeps -----

  // Appending keeps the layers apart exactly if it revives nothing that an earlier
  // injection had replaced by a leaf.
  lemma AppendKeepsLayered(l: Layers, s: Schema)
    requires Layered(l)
    ensures Layered(AfterAppend(l, s)) <==> NoRevival(l.declared, l.injected, s)
  {
    MergeAbsorbs(l.base, l.injected, s);
    SameRevival(l.declared, l.base, l.injected, s);
  }

  // Maximum sizes do not matter for that.
  lemma {:induction false} SameRevival(a: Schema, a': Schema, b: Schema, c: Schema)
    requires SameButMaxSize(a, a')
    ensures Covered(a, c) <==> Covered(a', c)
    ensures NoRevival(a, b, c) <==> NoRevival(a', b, c)
    decreases c
  {
    forall k | k in a.m
      ensures SameNodeButMaxSize(a, a', k)
      ensures k in c.m && a.m[k].Branch? && c.m[k].Branch? ==>
                (Covered(a.m[k].sub, c.m[k].sub) <==> Covered(a'.m[k].sub, c.m[k].sub))
      ensures NoRevivalAt(a, b, c, k) <==> NoRevivalAt(a', b, c, k)
    {
      assert SameNodeButMaxSize(a, a', k);
      if k in c.m && a.m[k].Branch? && c.m[k].Branch? {
        SameRevival(a.m[k].sub, a'.m[k].sub, if k in b.m && b.m[k].Branch? then b.m[k].sub else Empty(), c.m[k].sub);
      }
    }
  }

  // What is appended prevails, with all its attributes, in the injected and in the full
  // schema; elsewhere both keep what they had, unless a leaf was appended above.
  lemma AppendedPrevails(l: Layers, s: Schema, p: Path)
    requires p != []
    ensures var after := AfterAppend(l, s);
            && (Has(s, p) ==>
                  && Has(after.injected, p) && AttrsAt(after.injected, p) == AttrsAt(s, p)
                  && HasLeaf(after.injected, p) == HasLeaf(s, p)
                  && Has(after.full, p) && AttrsAt(after.full, p) == AttrsAt(s, p)
                  && HasLeaf(after.full, p) == HasLeaf(s, p))
            && (!Has(s, p) && !LeafAbove(s, p) ==> Find(after.injected, p) == Find(l.injected, p))
            && (LeafAbove(s, p) ==> !Has(after.injected, p) && !Has(after.full, p))
  {
    MergeFind(l.injected, s, p);
    MergeFind(l.full, Merge(l.injected, s), p);
    if y: Path :| y < p && HasLeaf(s, y) {
      MergeFind(l.injected, s, y);
      assert HasLeaf(Merge(l.injected, s), y);
    }
  }

  // As long as the layers are apart, the full schema keeps everything else as well.
  lemma AppendKeepsTheRest(l: Layers, s: Schema, p: Path)
    requires Layered(l) && Stacked(l) && p != []
    requires !Has(s, p) && !LeafAbove(s, p)
    ensures var after := AfterAppend(l, s);
            && Has(after.full, p) == Has(l.full, p) && HasLeaf(after.full, p) == HasLeaf(l.full, p)
            && (Has(l.full, p) ==> AttrsAt(after.full, p) == AttrsAt(l.full, p))
  {
    FullAfterAppend(l, s, p);
    MergeFind(l.injected, s, p);
    MergeFind(l.full, Merge(l.injected, s), p);
    if Has(l.injected, p) { InjectedPrevails(l, p); }
  }

  // Updating establishes the layers from any state; with an empty schema it restores the
  // static one.
  lemma UpdateEstablishesLayered(l: Layers, s: Schema)
    ensures Layered(AfterUpdate(l, s))
    ensures AfterUpdate(l, Empty()).full == l.declared
  {
    SameIsReflexive(l.declared);
    MergeEmpty(l.declared);
  }

  // Full and injected schema carry the same attributes wherever the latter has a path.
  lemma InjectedPrevails(l: Layers, p: Path)
    requires Layered(l) && Has(l.injected, p)
    ensures Has(l.full, p) && AttrsAt(l.full, p) == AttrsAt(l.injected, p)
    ensures HasLeaf(l.full, p) == HasLeaf(l.injected, p)
  {
    MergeFind(l.base, l.injected, p);
  }

  // A maximum size that commit refuses stays in the full schema only: exactly then the
  // layers come apart.
  ghost predicate RefusedOnFullOnly(l: Layers, p: Path, v: nat)
    requires Has(l.full, p)
  {
    && Has(l.injected, p)
    && !AttrsAt(l.injected, p).maxSizeFixed
    && !CommitAccepts(WithMaxSize(Find(l.full, p).value, v))
    && AttrsAt(l.injected, p).maxSize != Some(v)
  }

  lemma MaxSizeKeepsLayered(l: Layers, p: Path, v: nat)
    requires Layered(l) && Has(l.full, p)
    ensures Layered(AfterMaxSize(l, p, v).layers) <==> !RefusedOnFullOnly(l, p, v)
    ensures AfterMaxSize(l, p, v).ok <==>
              !AttrsAt(l.full, p).maxSizeFixed && CommitAccepts(WithMaxSize(Find(l.full, p).value, v))
  {
    if Has(l.injected, p) {
      InjectedPrevails(l, p);
      SetMaxSizeRight(l.base, l.injected, p, v);
      SetMaxSizeFind(l.full, p, v, p);
      if AttrsAt(l.injected, p).maxSize == Some(v) {
        SetMaxSizeTwice(l.full, p, v);
      }
    } else {
      MergeFind(l.base, l.injected, p);
      SetMaxSizeLeft(l.base, l.injected, p, v);
      SetMaxSizeKeepsSame(l.declared, l.base, p, v);
    }
  }

  // ----- what a new maximum size does -----

  // h differs from g in the maximum size at p only, if at all.
  ghost predicate SizeSetAt(g: Schema, h: Schema, p: Path, size: Option<nat>) {
    && (forall q :: Has(h, q) == Has(g, q) && HasLeaf(h, q) == HasLeaf(g, q))
    && (forall q :: Has(g, q) ==>
          AttrsAt(h, q) == if q == p then AttrsAt(g, q).(maxSize := size) else AttrsAt(g, q))
  }

  lemma SetMaxSizeSetsSize(s: Schema, p: Path, v: nat)
    requires p != []
    ensures SizeSetAt(s, SetMaxSize(s, p, v), p, Some(v))
  {
    forall q | q != []
      ensures Has(SetMaxSize(s, p, v), q) == Has(s, q) && HasLeaf(SetMaxSize(s, p, v), q) == HasLeaf(s, q)
      ensures Has(s, q) ==>
                AttrsAt(SetMaxSize(s, p, v), q) == if q == p then AttrsAt(s, q).(maxSize := Some(v)) else AttrsAt(s, q)
    {
      SetMaxSizeFind(s, p, v, q);
    }
  }

  // An accepted size is set in the full schema, and in the injected one if that has the
  // path; nothing else changes there.
  lemma AcceptedSizeIsSet(l: Layers, p: Path, v: nat)
    requires Has(l.full, p) && AfterMaxSize(l, p, v).ok
    ensures var after := AfterMaxSize(l, p, v).layers;
            && after.declared == l.declared
            && SizeSetAt(l.full, after.full, p, Some(v))
            && (Has(l.injected, p) ==> SizeSetAt(l.injected, after.injected, p, Some(v)))
            && (!Has(l.injected, p) ==> after.injected == l.injected)
  {
    SetMaxSizeSetsSize(l.full, p, v);
    SetMaxSizeSetsSize(l.injected, p, v);
  }

  // A refused size changes nothing if it is fixed, and is set in the full schema only, if
  // commit refuses it.
  lemma RefusedSizeIsSetOnFull(l: Layers, p: Path, v: nat)
    requires Layered(l) && Has(l.full, p) && !AfterMaxSize(l, p, v).ok
    ensures var after := AfterMaxSize(l, p, v).layers;
            && after.declared == l.declared && after.injected == l.injected
            && (AttrsAt(l.full, p).maxSizeFixed ==> after.full == l.full)
            && (!AttrsAt(l.full, p).maxSizeFixed ==> SizeSetAt(l.full, after.full, p, Some(v)))
  {
    MaxSizeKeepsLayered(l, p, v);
    SetMaxSizeSetsSize(l.full, p, v);
    if Has(l.injected, p) { InjectedPrevails(l, p); }
  }

  // Where the sizes of a list come to lie: the last one given for a path counts.
  ghost function SizeFor(paths: seq<Path>, values: seq<nat>, q: Path, otherwise: Option<nat>): Option<nat>
    requires |paths| == |values|
  {
    if paths == [] then otherwise
    else SizeFor(paths[1..], values[1..], q, if paths[0] == q then Some(values[0]) else otherwise)
  }

  lemma {:induction false} SizeForIs(paths: seq<Path>, values: seq<nat>, q: Path, otherwise: Option<nat>)
    requires |paths| == |values|
    ensures q !in paths ==> SizeFor(paths, values, q, otherwise) == otherwise
    ensures forall i :: 0 <= i < |paths| && paths[i] == q && q !in paths[i + 1..] ==>
              SizeFor(paths, values, q, otherwise) == Some(values[i])
    decreases |paths|
  {
    if paths != [] {
      SizeForIs(paths[1..], values[1..], q, if paths[0] == q then Some(values[0]) else otherwise);
      assert q in paths <==> q == paths[0] || q in paths[1..];
      forall i | 0 <= i < |paths| && paths[i] == q && q !in paths[i + 1..]
        ensures SizeFor(paths, values, q, otherwise) == Some(values[i])
      {
        if i > 0 { assert paths[1..][i - 1] == q && paths[1..][i..] == paths[i + 1..]; }
      }
    }
  }

  // After an accepted list every path has its size, in the full schema and where it is
  // injected, and nothing else has changed.
  lemma {:induction false} AcceptedSizesAreSet(l: Layers, paths: seq<Path>, values: seq<nat>, q: Path)
    requires CheckedUpFront(l, paths, values) && AfterMaxSizes(l, paths, values).ok
    ensures var after := AfterMaxSizes(l, paths, values).layers;
            && SizedAt(l.full, after.full, paths, values, q)
            && SizedAt(l.injected, after.injected, paths, values, q)
    decreases |paths|
  {
    if paths != [] {
      var first := AfterMaxSize(l, paths[0], values[0]);
      MaxSizeKeepsPaths(l, paths[0], values[0]);
      AcceptedSizeIsSet(l, paths[0], values[0]);
      AcceptedSizesAreSet(first.layers, paths[1..], values[1..], q);
      OneMoreSize(l.full, first.layers.full, AfterMaxSizes(l, paths, values).layers.full, paths, values, q);
      OneMoreSize(l.injected, first.layers.injected, AfterMaxSizes(l, paths, values).layers.injected, paths, values, q);
    }
  }

  lemma OneMoreSize(g: Schema, g': Schema, h: Schema, paths: seq<Path>, values: seq<nat>, q: Path)
    requires |paths| == |values| > 0
    requires SizeSetAt(g, g', paths[0], Some(values[0])) || (g' == g && !Has(g, paths[0]))
    requires SizedAt(g', h, paths[1..], values[1..], q)
    ensures SizedAt(g, h, paths, values, q)
  {
    assert Has(g', q) == Has(g, q);
  }

  ghost predicate SizedAt(g: Schema, h: Schema, paths: seq<Path>, values: seq<nat>, q: Path)
    requires |paths| == |values|
  {
    && Has(h, q) == Has(g, q) && HasLeaf(h, q) == HasLeaf(g, q)
    && (Has(g, q) ==>
          AttrsAt(h, q) == AttrsAt(g, q).(maxSize := SizeFor(paths, values, q, AttrsAt(g, q).maxSize)))
  }

  // The list is worked off up to the first size that is refused, and that is all.
  lemma {:induction false} SizesAreTriedInOrder(l: Layers, paths: seq<Path>, values: seq<nat>) returns (k: nat)
    requires CheckedUpFront(l, paths, values)
    ensures k <= |paths| && (AfterMaxSizes(l, paths, values).ok <==> k == |paths|)
    ensures CheckedUpFront(l, paths[..k], values[..k]) && AfterMaxSizes(l, paths[..k], values[..k]).ok
    ensures var done := AfterMaxSizes(l, paths[..k], values[..k]).layers;
            if k == |paths| then AfterMaxSizes(l, paths, values).layers == done
            else && Has(done.full, paths[k]) && !AfterMaxSize(done, paths[k], values[k]).ok
                 && AfterMaxSizes(l, paths, values) == AfterMaxSize(done, paths[k], values[k])
    decreases |paths|
  {
    if paths == [] {
      k := 0;
    } else {
      var first := AfterMaxSize(l, paths[0], values[0]);
      MaxSizeKeepsPaths(l, paths[0], values[0]);
      if first.ok {
        var j := SizesAreTriedInOrder(first.layers, paths[1..], values[1..]);
        k := j + 1;
        assert paths[..k][0] == paths[0] && paths[..k][1..] == paths[1..][..j];
        assert values[..k][0] == values[0] && values[..k][1..] == values[1..][..j];
      } else {
        k := 0;
      }
    }
  }

  // ----- whole runs -----

  datatype Op =
    | Append(schema: Schema)
    | Update(schema: Schema)
    | MaxSizes(paths: seq<Path>, values: seq<nat>)

  // internalAppendSchemaMultiMaxSize refuses calls up front without touching anything.
  ghost predicate CheckedUpFront(l: Layers, paths: seq<Path>, values: seq<nat>) {
    |paths| == |values| && forall p :: p in paths ==> Has(l.full, p)
  }

  ghost function AfterOp(l: Layers, op: Op): Layers {
    match op
    case Append(s) => AfterAppend(l, s)
    case Update(s) => AfterUpdate(l, s)
    case MaxSizes(paths, values) =>
      if CheckedUpFront(l, paths, values) then AfterMaxSizes(l, paths, values).layers else l
  }

  // The operations that the documentation has in mind: no path flips from node to leaf
  // and back, and no refused maximum size on an injected path
  ghost predicate Proper(l: Layers, op: Op) {
    match op
    case Append(s) => NoRevival(l.declared, l.injected, s)
    case Update(_) => true
    case MaxSizes(paths, values) => CheckedUpFront(l, paths, values) ==> ProperMaxSizes(l, paths, values)
  }

  ghost predicate ProperMaxSizes(l: Layers, paths: seq<Path>, values: seq<nat>)
    requires CheckedUpFront(l, paths, values)
    decreases |paths|
  {
    paths == [] ||
    (&& !RefusedOnFullOnly(l, paths[0], values[0])
     && (AfterMaxSize(l, paths[0], values[0]).ok ==>
           (MaxSizeKeepsPaths(l, paths[0], values[0]);
            ProperMaxSizes(AfterMaxSize(l, paths[0], values[0]).layers, paths[1..], values[1..]))))
  }

  lemma {:induction false} MaxSizesKeepLayered(l: Layers, paths: seq<Path>, values: seq<nat>)
    requires Layered(l) && CheckedUpFront(l, paths, values)
    ensures Layered(AfterMaxSizes(l, paths, values).layers) <==> ProperMaxSizes(l, paths, values)
    decreases |paths|
  {
    if paths != [] {
      MaxSizeKeepsLayered(l, paths[0], values[0]);
      var first := AfterMaxSize(l, paths[0], values[0]);
      if first.ok {
        MaxSizeKeepsPaths(l, paths[0], values[0]);
        MaxSizesKeepLayered(first.layers, paths[1..], values[1..]);
      }
    }
  }

  // One operation keeps the layers apart exactly if it is proper.
  lemma OpKeepsLayered(l: Layers, op: Op)
    requires Layered(l)
    ensures Layered(AfterOp(l, op)) <==> Proper(l, op)
  {
    match op
    case Append(s) => AppendKeepsLayered(l, s);
    case Update(s) => UpdateEstablishesLayered(l, s);
    case MaxSizes(paths, values) =>
      if CheckedUpFront(l, paths, values) { MaxSizesKeepLayered(l, paths, values); }
  }

  ghost function AfterOps(l: Layers, ops: seq<Op>): Layers
    decreases |ops|
  {
    if ops == [] then l else AfterOps(AfterOp(l, ops[0]), ops[1..])
  }

  ghost predicate AllProper(l: Layers, ops: seq<Op>)
    decreases |ops|
  {
    ops == [] || (Proper(l, ops[0]) && AllProper(AfterOp(l, ops[0]), ops[1..]))
  }

  lemma {:induction false} OpsKeepStatic(l: Layers, ops: seq<Op>)
    ensures AfterOps(l, ops).declared == l.declared
    decreases |ops|
  {
    if ops != [] {
      if ops[0].MaxSizes? && CheckedUpFront(l, ops[0].paths, ops[0].values) {
        MaxSizesKeepStatic(l, ops[0].paths, ops[0].values);
      }
      OpsKeepStatic(AfterOp(l, ops[0]), ops[1..]);
    }
  }

  lemma {:induction false} MaxSizesKeepStatic(l: Layers, paths: seq<Path>, values: seq<nat>)
    requires CheckedUpFront(l, paths, values)
    ensures AfterMaxSizes(l, paths, values).layers.declared == l.declared
    decreases |paths|
  {
    if paths != [] {
      var first := AfterMaxSize(l, paths[0], values[0]);
      if first.ok {
        MaxSizeKeepsPaths(l, paths[0], values[0]);
        MaxSizesKeepStatic(first.layers, paths[1..], values[1..]);
      }
    }
  }

  // From a freshly initialised device on, any run of proper operations leaves the full
  // schema equal to the static one, but for maximum sizes, merged with what is injected.
  lemma {:induction false} RunsKeepLayered(l: Layers, ops: seq<Op>)
    requires Layered(l) && AllProper(l, ops)
    ensures Layered(AfterOps(l, ops))
    decreases |ops|
  {
    if ops != [] {
      OpKeepsLayered(l, ops[0]);
      RunsKeepLayered(AfterOp(l, ops[0]), ops[1..]);
    }
  }

  lemma {:induction false} OpsCompose(l: Layers, ops: seq<Op>, more: seq<Op>)
    ensures AfterOps(l, ops + more) == AfterOps(AfterOps(l, ops), more)
    decreases |ops|
  {
    if ops == [] {
      assert ops + more == more;
    } else {
      assert (ops + more)[1..] == ops[1..] + more;
      OpsCompose(AfterOp(l, ops[0]), ops[1..], more);
    }
  }

  // An update forgets every operation before it, proper or not.
  lemma UpdateForgetsHistory(l: Layers, ops: seq<Op>, s: Schema)
    ensures var after := AfterOps(l, ops + [Update(s)]);
            && Layered(after)
            && after.full == Merge(l.declared, s) && after.injected == s && after.declared == l.declared
    ensures AfterOps(l, ops + [Update(Empty())]).full == l.declared
  {
    OpsCompose(l, ops, [Update(s)]);
    OpsCompose(l, ops, [Update(Empty())]);
    OpsKeepStatic(l, ops);
    UpdateEstablishesLayered(AfterOps(l, ops), s);
  }

  // ----- what every run keeps, proper or not -----

  // The full schema has all injected paths, as leaves or nodes as they were injected, and
  // nothing that is neither static nor injected.
  ghost predicate Stacked(l: Layers) {
    && (forall p :: Has(l.injected, p) ==> Has(l.full, p) && HasLeaf(l.full, p) == HasLeaf(l.injected, p))
    && (forall p :: Has(l.full, p) ==> Has(l.declared, p) || Has(l.injected, p))
  }

  // What an append makes of the full schema at p: what is injected, or else what was there.
  lemma FullAfterAppend(l: Layers, s: Schema, p: Path)
    requires Stacked(l) && p != []
    ensures var full := AfterAppend(l, s).full;
            && (Has(s, p) ==> Has(full, p) && HasLeaf(full, p) == HasLeaf(s, p))
            && (LeafAbove(s, p) ==> !Has(full, p))
            && (!Has(s, p) && !LeafAbove(s, p) ==>
                  Has(full, p) == Has(l.full, p) && HasLeaf(full, p) == HasLeaf(l.full, p))
  {
    var injected := Merge(l.injected, s);
    MergeFind(l.injected, s, p);
    MergeFind(l.full, injected, p);
    if y: Path :| y < p && HasLeaf(s, y) {
      MergeFind(l.injected, s, y);
      assert HasLeaf(injected, y);
    } else if !Has(s, p) {
      if y: Path :| y < p && HasLeaf(injected, y) {
        MergeFind(l.injected, s, y);
        assert HasLeaf(l.full, y);
        if Has(l.full, p) { AncestorsAreBranches(l.full, y, p); }
        if Has(l.injected, p) { AncestorsAreBranches(l.injected, y, p); }
      }
    }
  }

  lemma AppendKeepsStacked(l: Layers, s: Schema)
    requires Stacked(l)
    ensures Stacked(AfterAppend(l, s))
  {
    var after := AfterAppend(l, s);
    forall p | p != []
      ensures Has(after.injected, p) ==> Has(after.full, p) && HasLeaf(after.full, p) == HasLeaf(after.injected, p)
      ensures Has(after.full, p) ==> Has(l.declared, p) || Has(after.injected, p)
    {
      MergeFind(l.injected, s, p);
      MergeFind(l.full, after.injected, p);
      FullAfterAppend(l, s, p);
    }
  }

  lemma UpdateEstablishesStacked(l: Layers, s: Schema)
    ensures Stacked(AfterUpdate(l, s))
  {
    forall p | p != []
      ensures Has(s, p) ==> Has(Merge(l.declared, s), p) && HasLeaf(Merge(l.declared, s), p) == HasLeaf(s, p)
      ensures Has(Merge(l.declared, s), p) ==> Has(l.declared, p) || Has(s, p)
    {
      MergeFind(l.declared, s, p);
    }
  }

  lemma MaxSizeKeepsStacked(l: Layers, p: Path, v: nat)
    requires Stacked(l) && Has(l.full, p)
    ensures Stacked(AfterMaxSize(l, p, v).layers)
    ensures forall q :: HasLeaf(AfterMaxSize(l, p, v).layers.full, q) == HasLeaf(l.full, q)
  {
    var after := AfterMaxSize(l, p, v).layers;
    forall q
      ensures Has(after.full, q) == Has(l.full, q) && HasLeaf(after.full, q) == HasLeaf(l.full, q)
      ensures Has(after.injected, q) == Has(l.injected, q) && HasLeaf(after.injected, q) == HasLeaf(l.injected, q)
    {
      if q != [] {
        SetMaxSizeFind(l.full, p, v, q);
        SetMaxSizeFind(l.injected, p, v, q);
      }
    }
  }

  lemma {:induction false} MaxSizesKeepStacked(l: Layers, paths: seq<Path>, values: seq<nat>)
    requires Stacked(l) && CheckedUpFront(l, paths, values)
    ensures var after := AfterMaxSizes(l, paths, values).layers;
            && Stacked(after)
            && forall q :: Has(after.full, q) == Has(l.full, q) && HasLeaf(after.full, q) == HasLeaf(l.full, q)
    decreases |paths|
  {
    if paths != [] {
      var first := AfterMaxSize(l, paths[0], values[0]);
      MaxSizeKeepsStacked(l, paths[0], values[0]);
      MaxSizeKeepsPaths(l, paths[0], values[0]);
      if first.ok {
        MaxSizesKeepStacked(first.layers, paths[1..], values[1..]);
      }
    }
  }

  lemma OpKeepsStacked(l: Layers, op: Op)
    requires Stacked(l)
    ensures Stacked(AfterOp(l, op))
  {
    match op
    case Append(s) => AppendKeepsStacked(l, s);
    case Update(s) => UpdateEstablishesStacked(l, s);
    case MaxSizes(paths, values) =>
      if CheckedUpFront(l, paths, values) { MaxSizesKeepStacked(l, paths, values); }
  }

  // ----- state-dependent schemas -----

  predicate Selected(a: Attrs, state: string) {
    a.writable && (a.allowedStates == {} || state in a.allowedStates)
  }

  // subSchemaByRules for access mode WRITE and a state
  function SubSchema(s: Schema, state: string): Schema {
    Hash(map k | k in s.m && KeepsTip(s.m[k], state) :: SubNode(s.m[k], state))
  }

  predicate KeepsTip(n: Node<Attrs, Attrs>, state: string) {
    match n
    case Leaf(a) => Selected(a, state)
    case Branch(sub, a) =>
      if sub.m == map[] then Selected(a, state) else exists k :: k in sub.m && KeepsTip(sub.m[k], state)
  }

  function SubNode(n: Node<Attrs, Attrs>, state: string): Node<Attrs, Attrs> {
    match n
    case Leaf(a) => n
    case Branch(sub, a) => Branch(SubSchema(sub, state), a)
  }

  // The sub-schema has exactly the selected leaves and empty nodes, with their attributes.
  lemma {:induction false} SubSchemaHasTheSelected(s: Schema, state: string, p: Path)
    ensures p in Paths(SubSchema(s, state)) <==>
              && p in Paths(s) && Has(s, p) && AttrsAt(s, p).writable
              && (AttrsAt(s, p).allowedStates == {} || state in AttrsAt(s, p).allowedStates)
    ensures p in Paths(SubSchema(s, state)) ==> Find(SubSchema(s, state), p) == Find(s, p)
    decreases s
  {
    var t := SubSchema(s, state);
    PathsAreTips(s, p);
    PathsAreTips(t, p);
    if p != [] { SubSchemaKey(s, state, p[0]); }
    if p != [] && p[0] in s.m && s.m[p[0]].Branch? && s.m[p[0]].sub.m != map[] {
      SelectedBelow(s, state, p);
      SubSchemaHasTheSelected(s.m[p[0]].sub, state, p[1..]);
    }
  }

  // What it has, inner nodes included, is as in the full one.
  lemma {:induction false} SubSchemaKeepsAttributes(s: Schema, state: string, p: Path)
    requires Has(SubSchema(s, state), p)
    ensures Has(s, p) && HasLeaf(SubSchema(s, state), p) == HasLeaf(s, p)
    ensures AttrsAt(SubSchema(s, state), p) == AttrsAt(s, p)
    decreases p
  {
    SubSchemaKey(s, state, p[0]);
    if |p| > 1 {
      SubSchemaKeepsAttributes(s.m[p[0]].sub, state, p[1..]);
    }
  }

  lemma SubSchemaKey(s: Schema, state: string, k: string)
    ensures k in SubSchema(s, state).m <==> k in s.m && KeepsTip(s.m[k], state)
    ensures k in SubSchema(s, state).m ==> SubSchema(s, state).m[k] == SubNode(s.m[k], state)
  {}

  // A node with children keeps exactly the selected of the paths below it.
  lemma SelectedBelow(s: Schema, state: string, p: Path)
    requires p != [] && p[0] in s.m && s.m[p[0]].Branch? && s.m[p[0]].sub.m != map[]
    ensures var sub := s.m[p[0]].sub;
            && (p in Paths(s) <==> p[1..] in Paths(sub))
            && (p in Paths(SubSchema(s, state)) <==> p[1..] in Paths(SubSchema(sub, state)))
            && (|p| > 1 ==> Find(s, p) == Find(sub, p[1..]))
            && (p in Paths(SubSchema(s, state)) ==>
                  |p| > 1 && Find(SubSchema(s, state), p) == Find(SubSchema(sub, state), p[1..]))
  {
    var sub := s.m[p[0]].sub;
    var t, subT := SubSchema(s, state), SubSchema(sub, state);
    TipsOfNode(s, p);
    PathsAreTips(subT, p[1..]);
    if KeepsTip(s.m[p[0]], state) {
      var k :| k in sub.m && KeepsTip(sub.m[k], state);
      SubSchemaKey(sub, state, k);
      SubSchemaKey(s, state, p[0]);
      assert t.m[p[0]] == Branch(subT, s.m[p[0]].attrs);
      TipsOfNode(t, p);
    } else {
      assert forall k :: k in sub.m ==> !KeepsTip(sub.m[k], state);
      SubSchemaKey(s, state, p[0]);
      if |p| > 1 { SubSchemaKey(sub, state, p[1]); }
      PathsAreTips(t, p);
    }
  }
}
