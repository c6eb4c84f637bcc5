// Karabo's Hash as a tree of keys: nested paths, path erasure with its cascade, and the
// right-biased merge with its algebra. A path is the sequence of keys that the '.' of a
// path string separates; the order of the keys of a node is not modelled.

module HashTree {
  import opened Options

  type Path = seq<string>

  // L: what a leaf carries, B: what an inner node carries besides its children
  datatype Hash<L, B> = Hash(m: map<string, Node<L, B>>)
  datatype Node<L, B> = Leaf(value: L) | Branch(sub: Hash<L, B>, attrs: B)

  function Empty<L, B>(): Hash<L, B> {
    Hash(map[])
  }

  // ----- lookup -----

  function Find<L, B>(h: Hash<L, B>, p: Path): Option<Node<L, B>>
    requires p != []
    decreases p
  {
    if p[0] !in h.m then None
    else if |p| == 1 then Some(h.m[p[0]])
    else
      match h.m[p[0]]
      case Leaf(_) => None
      case Branch(sub, _) => Find(sub, p[1..])
  }

  predicate Has<L, B>(h: Hash<L, B>, p: Path) {
    p != [] && Find(h, p).Some?
  }

  predicate HasLeaf<L, B>(h: Hash<L, B>, p: Path) {
    p != [] && Find(h, p).Some? && Find(h, p).value.Leaf?
  }

  predicate HasBranch<L, B>(h: Hash<L, B>, p: Path) {
    p != [] && Find(h, p).Some? && Find(h, p).value.Branch?
  }

  function LeafAt<L, B>(h: Hash<L, B>, p: Path): Option<L> {
    if HasLeaf(h, p) then Some(Find(h, p).value.value) else None
  }

  predicate IsEmptyNode<L, B>(h: Hash<L, B>, p: Path) {
    HasBranch(h, p) && Find(h, p).value.sub.m == map[]
  }

  // Finding continues below a node that is found.
  lemma {:induction false} FindBelow<L, B>(h: Hash<L, B>, p: Path, q: Path)
    requires p != [] && q != []
    ensures Find(h, p + q) ==
            if Find(h, p).Some? && Find(h, p).value.Branch? then Find(Find(h, p).value.sub, q) else None
    decreases p
  {
    assert (p + q)[0] == p[0] && (p + q)[1..] == p[1..] + q;
    if |p| == 1 {
      assert p[1..] + q == q;
    } else if p[0] in h.m && h.m[p[0]].Branch? {
      FindBelow(h.m[p[0]].sub, p[1..], q);
    }
  }

  // Whatever exists has branches above it.
  lemma AncestorsAreBranches<L, B>(h: Hash<L, B>, p: Path, q: Path)
    requires p != [] && p < q && Has(h, q)
    ensures HasBranch(h, p)
  {
    assert q == p + q[|p|..];
    FindBelow(h, p, q[|p|..]);
  }

  // ----- getPaths -----

  // All paths to leaves and to empty nodes
  function Paths<L, B>(h: Hash<L, B>): set<Path> {
    set k, q | k in h.m && q in NodePaths(h.m[k]) :: [k] + q
  }

  function NodePaths<L, B>(n: Node<L, B>): set<Path> {
    match n
    case Leaf(_) => {[]}
    case Branch(sub, _) => if sub.m == map[] then {[]} else Paths(sub)
  }

  lemma {:induction false} PathsAreTips<L, B>(h: Hash<L, B>, p: Path)
    ensures p in Paths(h) <==>
            HasLeaf(h, p) || IsEmptyNode(h, p)
    decreases h
  {
    if p != [] && p[0] in h.m {
      assert p == [p[0]] + p[1..];
      match h.m[p[0]]
      case Leaf(_) =>
        assert p in Paths(h) <==> p[1..] == [] by { TipsOfNode(h, p); }
      case Branch(sub, _) =>
        TipsOfNode(h, p);
        PathsAreTips(sub, p[1..]);
        if |p| == 1 {
          assert [] !in Paths(sub);
        } else if sub.m == map[] {
          assert Find(sub, p[1..]) == None;
        }
    }
  }

  lemma TipsOfNode<L, B>(h: Hash<L, B>, p: Path)
    requires p != [] && p[0] in h.m
    ensures p in Paths(h) <==> p[1..] in NodePaths(h.m[p[0]])
  {
    assert p == [p[0]] + p[1..];
    if p in Paths(h) {
      var k, q :| k in h.m && q in NodePaths(h.m[k]) && p == [k] + q;
      assert q == p[1..];
    }
  }

  // What exists has one of the listed paths at or below it, and above those all exists.
  lemma HasAboveTip<L, B>(h: Hash<L, B>, q: Path, x: Path)
    requires q != [] && x in Paths(h) && q <= x
    ensures Has(h, q)
  {
    PathsAreTips(h, x);
    if q != x { AncestorsAreBranches(h, q, x); }
  }

  lemma {:induction false} SomeTip<L, B>(h: Hash<L, B>, q: Path) returns (x: Path)
    requires Has(h, q)
    ensures x in Paths(h) && q <= x
    decreases Find(h, q).value
  {
    PathsAreTips(h, q);
    if q in Paths(h) {
      x := q;
    } else {
      var k :| k in Find(h, q).value.sub.m;
      FindBelow(h, q, [k]);
      x := SomeTip(h, q + [k]);
    }
  }

  lemma NothingBelowTips<L, B>(h: Hash<L, B>, p: Path, q: Path)
    requires p in Paths(h) && p < q
    ensures !Has(h, q)
  {
    PathsAreTips(h, p);
    assert q == p + q[|p|..];
    FindBelow(h, p, q[|p|..]);
  }

  lemma PrefixOfPrefix(a: Path, b: Path, c: Path)
    requires a <= b <= c
    ensures a <= c && (a < b || b < c ==> a < c)
  {
    assert a == b[..|a|] == c[..|a|];
  }

  lemma PrefixesCompare(a: Path, b: Path, c: Path)
    requires a <= c && b <= c
    ensures if |a| < |b| then a < b else b <= a
  {
    assert a == c[..|a|] && b == c[..|b|];
  }

  // A node is empty exactly if it has no child.
  lemma EmptyHasNoChild<L, B>(h: Hash<L, B>, q: Path)
    requires HasBranch(h, q)
    ensures IsEmptyNode(h, q) <==> forall k :: !Has(h, q + [k])
  {
    forall k
      ensures Has(h, q + [k]) <==> k in Find(h, q).value.sub.m
    {
      FindBelow(h, q, [k]);
    }
    if !IsEmptyNode(h, q) {
      var k :| k in Find(h, q).value.sub.m;
      assert Has(h, q + [k]);
    }
  }

  // ----- set and erasePath -----

  // set(p, Hash()): nodes on the way are created, or forced to be nodes
  function SetEmpty<L, B>(h: Hash<L, B>, p: Path, attrs: B): Hash<L, B>
    requires p != []
    decreases p
  {
    if |p| == 1 then Hash(h.m[p[0] := Branch(Empty(), attrs)])
    else if p[0] in h.m && h.m[p[0]].Branch? then
      Hash(h.m[p[0] := Branch(SetEmpty(h.m[p[0]].sub, p[1..], attrs), h.m[p[0]].attrs)])
    else
      Hash(h.m[p[0] := Branch(SetEmpty(Empty(), p[1..], attrs), attrs)])
  }

  // erasePath: removes the entry at p and then every ancestor left empty. Nothing happens
  // if the node that should hold the entry does not exist; an empty one goes.
  function ErasePath<L, B>(h: Hash<L, B>, p: Path): Hash<L, B>
    requires p != []
    decreases p
  {
    if |p| == 1 then Hash(h.m - {p[0]})
    else if ParentExists(h, p) then
      var sub := ErasePath(h.m[p[0]].sub, p[1..]);
      if sub.m == map[] then Hash(h.m - {p[0]})
      else Hash(h.m[p[0] := Branch(sub, h.m[p[0]].attrs)])
    else h
  }

  predicate ParentExists<L, B>(h: Hash<L, B>, p: Path)
    requires p != []
    decreases p
  {
    |p| == 1 || (p[0] in h.m && h.m[p[0]].Branch? && ParentExists(h.m[p[0]].sub, p[1..]))
  }

  lemma {:induction false} EraseRemoves<L, B>(h: Hash<L, B>, p: Path, q: Path)
    requires p != [] && p <= q
    ensures !Has(ErasePath(h, p), q)
    decreases p
  {
    if |p| > 1 && p[0] in h.m && h.m[p[0]].Branch? {
      EraseRemoves(h.m[p[0]].sub, p[1..], q[1..]);
      if !ParentExists(h.m[p[0]].sub, p[1..]) {
        NoParentNoEntry(h.m[p[0]].sub, p[1..], q[1..]);
      }
    }
  }

  lemma {:induction false} NoParentNoEntry<L, B>(h: Hash<L, B>, p: Path, q: Path)
    requires p != [] && p <= q && !ParentExists(h, p)
    ensures !Has(h, q)
    decreases p
  {
    if |p| > 1 && p[0] in h.m && h.m[p[0]].Branch? {
      NoParentNoEntry(h.m[p[0]].sub, p[1..], q[1..]);
    }
  }

  // Outside the erased subtree, leaves stay as they are.
  lemma {:induction false} EraseKeepsLeaves<L, B>(h: Hash<L, B>, p: Path, q: Path)
    requires p != [] && !(p <= q)
    ensures LeafAt(ErasePath(h, p), q) == LeafAt(h, q)
    decreases p
  {
    if q != [] && |p| > 1 && q[0] == p[0] && ParentExists(h, p) {
      if |q| > 1 {
        EraseKeepsLeaves(h.m[p[0]].sub, p[1..], q[1..]);
      }
    }
  }

  // Only ancestors of the erased path can disappear with it.
  lemma {:induction false} EraseKeepsOthers<L, B>(h: Hash<L, B>, p: Path, q: Path)
    requires p != [] && !(p <= q) && !(q <= p)
    ensures Has(ErasePath(h, p), q) == Has(h, q)
    decreases p
  {
    if q != [] && |p| > 1 && q[0] == p[0] && ParentExists(h, p) {
      EraseKeepsOthers(h.m[p[0]].sub, p[1..], q[1..]);
    }
  }

  lemma {:induction false} EraseAddsNothing<L, B>(h: Hash<L, B>, p: Path, q: Path)
    requires p != [] && Has(ErasePath(h, p), q)
    ensures Has(h, q) && Find(ErasePath(h, p), q).value.Leaf? == Find(h, q).value.Leaf?
    decreases p
  {
    if |p| > 1 && q[0] == p[0] && ParentExists(h, p) && |q| > 1 {
      EraseAddsNothing(h.m[p[0]].sub, p[1..], q[1..]);
    }
  }

  // No node becomes empty: a node left without content is erased, too. In particular the
  // node that held the erased entry is not left behind empty.
  lemma {:induction false} EraseEmptiesNothing<L, B>(h: Hash<L, B>, p: Path, q: Path)
    requires p != []
    ensures IsEmptyNode(ErasePath(h, p), q) ==> IsEmptyNode(h, q) && q != p[..|p| - 1]
    decreases p
  {
    if q != [] && |p| > 1 && q[0] == p[0] && ParentExists(h, p) {
      if |q| > 1 {
        EraseEmptiesNothing(h.m[p[0]].sub, p[1..], q[1..]);
        assert p[..|p| - 1][1..] == p[1..][..|p[1..]| - 1];
      }
    } else if q != [] && q == p[..|p| - 1] && |p| > 1 {
      EmptyParentExists(h, p);
    }
  }

  // If the node that should hold the entry is there, erasing applies to it.
  lemma {:induction false} EmptyParentExists<L, B>(h: Hash<L, B>, p: Path)
    requires |p| > 1
    ensures HasBranch(h, p[..|p| - 1]) ==> ParentExists(h, p)
    decreases p
  {
    assert p[..|p| - 1][0] == p[0] && p[..|p| - 1][1..] == p[1..][..|p[1..]| - 1];
    if |p| > 2 && p[0] in h.m && h.m[p[0]].Branch? {
      EmptyParentExists(h.m[p[0]].sub, p[1..]);
    }
  }

  // Empty nodes stay, unless erased or the direct holder of what is erased.
  lemma {:induction false} EraseKeepsEmpty<L, B>(h: Hash<L, B>, p: Path, q: Path)
    requires p != [] && !(p <= q) && q != p[..|p| - 1] && IsEmptyNode(h, q)
    ensures IsEmptyNode(ErasePath(h, p), q)
    decreases p
  {
    if |p| > 1 && q[0] == p[0] && ParentExists(h, p) {
      if |q| > 1 {
        assert p[..|p| - 1][1..] == p[1..][..|p[1..]| - 1];
        EraseKeepsEmpty(h.m[p[0]].sub, p[1..], q[1..]);
      }
    }
  }

  // Exactly which paths erasing leaves: no more than the erased subtree is lost, but for
  // an empty node that should have held it.
  lemma ErasedPaths<L, B>(h: Hash<L, B>, p: Path, q: Path)
    requires p != []
    ensures q in Paths(ErasePath(h, p)) <==>
            q in Paths(h) && !(p <= q) && (HasLeaf(h, q) || q != p[..|p| - 1])
  {
    PathsAreTips(h, q);
    PathsAreTips(ErasePath(h, p), q);
    EraseEmptiesNothing(h, p, q);
    if p <= q {
      EraseRemoves(h, p, q);
    } else {
      EraseKeepsLeaves(h, p, q);
      if IsEmptyNode(h, q) && q != p[..|p| - 1] {
        EraseKeepsEmpty(h, p, q);
      }
    }
  }

  lemma {:induction false} SetEmptyFind<L, B>(h: Hash<L, B>, p: Path, attrs: B, q: Path)
    requires p != [] && q != []
    ensures q <= p ==> HasBranch(SetEmpty(h, p, attrs), q)
    ensures p < q ==> !Has(SetEmpty(h, p, attrs), q)
    ensures !(q <= p) && !(p <= q) && Has(h, q) ==> Find(SetEmpty(h, p, attrs), q) == Find(h, q)
    ensures !(q <= p) && !Has(h, q) ==> !Has(SetEmpty(h, p, attrs), q)
    decreases p
  {
    if |p| > 1 && q[0] == p[0] && |q| > 1 {
      if p[0] in h.m && h.m[p[0]].Branch? {
        SetEmptyFind(h.m[p[0]].sub, p[1..], attrs, q[1..]);
      } else {
        SetEmptyFind<L, B>(Empty(), p[1..], attrs, q[1..]);
      }
    } else if |p| == 1 && p < q {
      assert SetEmpty(h, p, attrs).m[q[0]] == Branch(Empty(), attrs);
      assert Find(SetEmpty(h, p, attrs), q) == Find<L, B>(Empty(), q[1..]);
    }
  }

  // ----- merge -----

  // Hash::merge with REPLACE_ATTRIBUTES: nodes are merged with nodes, anything else is
  // replaced by what the right side has.
  function Merge<L, B>(a: Hash<L, B>, b: Hash<L, B>): Hash<L, B>
    decreases b
  {
    Hash(map k | k in a.m.Keys + b.m.Keys ::
      if k !in b.m then a.m[k]
      else if k in a.m && a.m[k].Branch? && b.m[k].Branch? then
        Branch(Merge(a.m[k].sub, b.m[k].sub), b.m[k].attrs)
      else b.m[k])
  }

  lemma MergeKey<L, B>(a: Hash<L, B>, b: Hash<L, B>, k: string)
    ensures k in Merge(a, b).m <==> k in a.m || k in b.m
    ensures k in b.m && k in a.m && a.m[k].Branch? && b.m[k].Branch? ==>
              Merge(a, b).m[k] == Branch(Merge(a.m[k].sub, b.m[k].sub), b.m[k].attrs)
    ensures k in b.m && !(k in a.m && a.m[k].Branch? && b.m[k].Branch?) ==> Merge(a, b).m[k] == b.m[k]
    ensures k !in b.m && k in a.m ==> Merge(a, b).m[k] == a.m[k]
  {}

  lemma SameEntries<L, B>(a: Hash<L, B>, b: Hash<L, B>)
    requires forall k :: k in a.m <==> k in b.m
    requires forall k :: k in a.m ==> a.m[k] == b.m[k]
    ensures a == b
  {
    assert a.m == b.m;
  }

  lemma MergeEmpty<L, B>(a: Hash<L, B>)
    ensures Merge(a, Empty()) == a && Merge(Empty(), a) == a
  {
    SameEntries(Merge(a, Empty()), a);
    SameEntries(Merge(Empty(), a), a);
  }

  // What the right side has prevails; what only the left side has stays unless the right
  // side put a leaf above it.
  lemma {:induction false} MergeFind<L, B>(a: Hash<L, B>, b: Hash<L, B>, p: Path)
    requires p != []
    ensures HasLeaf(b, p) ==> Find(Merge(a, b), p) == Find(b, p)
    ensures HasBranch(b, p) ==> HasBranch(Merge(a, b), p) && Find(Merge(a, b), p).value.attrs == Find(b, p).value.attrs
    ensures !Has(b, p) && !LeafAbove(b, p) ==> Find(Merge(a, b), p) == Find(a, p)
    ensures LeafAbove(b, p) ==> !Has(Merge(a, b), p)
    decreases p
  {
    MergeKey(a, b, p[0]);
    if |p| > 1 && p[0] in b.m && b.m[p[0]].Branch? {
      LeafAboveBelow(b, p);
      if p[0] in a.m && a.m[p[0]].Branch? {
        MergeFind(a.m[p[0]].sub, b.m[p[0]].sub, p[1..]);
      } else if q: Path :| q < p && HasLeaf(b, q) {
        if Has(b, p) { AncestorsAreBranches(b, q, p); }
      }
    } else if |p| > 1 && p[0] in b.m {
      assert [p[0]] < p && HasLeaf(b, [p[0]]);
    } else {
      forall q: Path | q != [] && q < p
        ensures !HasLeaf(b, q)
      {
        if |p| > 1 { assert q[0] == p[0]; }
      }
    }
  }

  ghost predicate LeafAbove<L, B>(h: Hash<L, B>, p: Path) {
    exists q: Path :: q < p && HasLeaf(h, q)
  }

  lemma LeafAboveBelow<L, B>(h: Hash<L, B>, p: Path)
    requires |p| > 1 && p[0] in h.m && h.m[p[0]].Branch?
    ensures LeafAbove(h, p) <==> LeafAbove(h.m[p[0]].sub, p[1..])
  {
    if q: Path :| q < p && HasLeaf(h, q) {
      assert q[1..] < p[1..] && HasLeaf(h.m[p[0]].sub, q[1..]);
    }
    if q: Path :| q < p[1..] && HasLeaf(h.m[p[0]].sub, q) {
      assert [p[0]] + q < p && ([p[0]] + q)[1..] == q;
      assert HasLeaf(h, [p[0]] + q);
    }
  }

  lemma MergeHas<L, B>(a: Hash<L, B>, b: Hash<L, B>, p: Path)
    requires Has(Merge(a, b), p)
    ensures Has(a, p) || Has(b, p)
  {
    MergeFind(a, b, p);
  }

  // ----- the algebra of merge -----

  // Merging the right side into a result that already contains it changes nothing.
  lemma {:induction false} MergeAgainRight<L, B>(a: Hash<L, B>, b: Hash<L, B>)
    ensures Merge(Merge(a, b), b) == Merge(a, b)
    decreases b
  {
    forall k | k in a.m || k in b.m
      ensures k in Merge(Merge(a, b), b).m && Merge(Merge(a, b), b).m[k] == Merge(a, b).m[k]
    {
      MergeKey(a, b, k);
      MergeKey(Merge(a, b), b, k);
      if k in b.m && b.m[k].Branch? {
        if k in a.m && a.m[k].Branch? {
          MergeAgainRight(a.m[k].sub, b.m[k].sub);
        } else {
          MergeIdempotent(b.m[k].sub);
        }
      }
    }
    SameEntries(Merge(Merge(a, b), b), Merge(a, b));
  }

  lemma {:induction false} MergeIdempotent<L, B>(a: Hash<L, B>)
    ensures Merge(a, a) == a
    decreases a
  {
    forall k | k in a.m
      ensures Merge(a, a).m[k] == a.m[k]
    {
      MergeKey(a, a, k);
      if a.m[k].Branch? {
        MergeIdempotent(a.m[k].sub);
      }
    }
    SameEntries(Merge(a, a), a);
  }

  lemma {:induction false} MergeAgainLeft<L, B>(a: Hash<L, B>, b: Hash<L, B>)
    ensures Merge(a, Merge(a, b)) == Merge(a, b)
    decreases b
  {
    forall k | k in a.m || k in b.m
      ensures k in Merge(a, Merge(a, b)).m && Merge(a, Merge(a, b)).m[k] == Merge(a, b).m[k]
    {
      MergeKey(a, b, k);
      MergeKey(a, Merge(a, b), k);
      if k in a.m && a.m[k].Branch? {
        if k !in b.m {
          MergeIdempotent(a.m[k].sub);
        } else if b.m[k].Branch? {
          MergeAgainLeft(a.m[k].sub, b.m[k].sub);
        }
      }
    }
    SameEntries(Merge(a, Merge(a, b)), Merge(a, b));
  }

  // Every path of a is also one of c, down to the leaves of c.
  predicate Covered<L, B>(a: Hash<L, B>, c: Hash<L, B>) {
    forall k :: k in a.m ==>
      && k in c.m
      && (a.m[k].Branch? && c.m[k].Branch? ==> Covered(a.m[k].sub, c.m[k].sub))
  }

  lemma {:induction false} CoveredIsAbsorbed<L, B>(a: Hash<L, B>, c: Hash<L, B>)
    ensures Merge(a, c) == c <==> Covered(a, c)
    decreases c
  {
    forall k | k in a.m || k in c.m
      ensures k in Merge(a, c).m
      ensures k in a.m && k in c.m && a.m[k].Branch? && c.m[k].Branch? ==>
                (Merge(a, c).m[k] == c.m[k] <==> Covered(a.m[k].sub, c.m[k].sub))
      ensures k in c.m && !(k in a.m && a.m[k].Branch? && c.m[k].Branch?) ==> Merge(a, c).m[k] == c.m[k]
    {
      MergeKey(a, c, k);
      if k in a.m && k in c.m && a.m[k].Branch? && c.m[k].Branch? {
        CoveredIsAbsorbed(a.m[k].sub, c.m[k].sub);
      }
    }
    if Covered(a, c) {
      SameEntries(Merge(a, c), c);
    } else {
      var k :| k in a.m && !(k in c.m && (a.m[k].Branch? && c.m[k].Branch? ==> Covered(a.m[k].sub, c.m[k].sub)));
      assert k in Merge(a, c).m;
    }
  }

  // No path changes from node over leaf back to node in a way that would bring a's old
  // content back: where a and c have a node and b a leaf in between, c already has all
  // paths of a.
  predicate NoRevival<L, B>(a: Hash<L, B>, b: Hash<L, B>, c: Hash<L, B>)
    decreases c, 1
  {
    forall k :: k in a.m ==> NoRevivalAt(a, b, c, k)
  }

  predicate NoRevivalAt<L, B>(a: Hash<L, B>, b: Hash<L, B>, c: Hash<L, B>, k: string)
    decreases c, 0
  {
    k in a.m && k in b.m && k in c.m && a.m[k].Branch? && c.m[k].Branch? ==>
      if b.m[k].Leaf? then Covered(a.m[k].sub, c.m[k].sub)
      else NoRevival(a.m[k].sub, b.m[k].sub, c.m[k].sub)
  }

  // The merge is associative exactly if nothing is revived.
  lemma {:induction false} MergeAssociative<L, B>(a: Hash<L, B>, b: Hash<L, B>, c: Hash<L, B>)
    ensures Merge(Merge(a, b), c) == Merge(a, Merge(b, c)) <==> NoRevival(a, b, c)
    decreases c
  {
    var left, right := Merge(Merge(a, b), c), Merge(a, Merge(b, c));
    forall k | k in a.m || k in b.m || k in c.m
      ensures k in left.m && k in right.m
      ensures left.m[k] == right.m[k] <==> NoRevivalAt(a, b, c, k)
    {
      MergeKey(a, b, k);
      MergeKey(Merge(a, b), c, k);
      MergeKey(b, c, k);
      MergeKey(a, Merge(b, c), k);
      if k in a.m && k in b.m && k in c.m && a.m[k].Branch? && c.m[k].Branch? {
        if b.m[k].Leaf? {
          CoveredIsAbsorbed(a.m[k].sub, c.m[k].sub);
        } else {
          MergeAssociative(a.m[k].sub, b.m[k].sub, c.m[k].sub);
        }
      }
    }
    if NoRevival(a, b, c) {
      SameEntries(left, right);
    } else {
      var k :| k in a.m && k in b.m && k in c.m && !NoRevivalAt(a, b, c, k);
      assert k in left.m;
    }
  }

  // Merging b again together with c, into a result that already contains b, is the same
  // as merging b and c at once, exactly if nothing is revived.
  lemma {:induction false} MergeAbsorbs<L, B>(a: Hash<L, B>, b: Hash<L, B>, c: Hash<L, B>)
    ensures Merge(Merge(a, b), Merge(b, c)) == Merge(a, Merge(b, c)) <==> NoRevival(a, b, c)
    decreases c
  {
    var left, right := Merge(Merge(a, b), Merge(b, c)), Merge(a, Merge(b, c));
    forall k | k in a.m || k in b.m || k in c.m
      ensures k in left.m && k in right.m
      ensures left.m[k] == right.m[k] <==> NoRevivalAt(a, b, c, k)
    {
      AbsorbsAt(a, b, c, k);
      if k in a.m && k in b.m && k in c.m && a.m[k].Branch? && b.m[k].Branch? && c.m[k].Branch? {
        MergeAbsorbs(a.m[k].sub, b.m[k].sub, c.m[k].sub);
      }
    }
    if NoRevival(a, b, c) {
      SameEntries(left, right);
    } else {
      var k :| k in a.m && k in b.m && k in c.m && !NoRevivalAt(a, b, c, k);
      assert k in left.m;
    }
  }

  lemma AbsorbsAt<L, B>(a: Hash<L, B>, b: Hash<L, B>, c: Hash<L, B>, k: string)
    requires k in a.m || k in b.m || k in c.m
    ensures var left, right := Merge(Merge(a, b), Merge(b, c)), Merge(a, Merge(b, c));
            && k in left.m && k in right.m
            && if k in a.m && k in b.m && k in c.m && a.m[k].Branch? && b.m[k].Branch? && c.m[k].Branch? then
                 var x, y, z := a.m[k].sub, b.m[k].sub, c.m[k].sub;
                 && left.m[k] == Branch(Merge(Merge(x, y), Merge(y, z)), c.m[k].attrs)
                 && right.m[k] == Branch(Merge(x, Merge(y, z)), c.m[k].attrs)
               else left.m[k] == right.m[k] <==> NoRevivalAt(a, b, c, k)
  {
    MergeKey(a, b, k);
    MergeKey(b, c, k);
    MergeKey(Merge(a, b), Merge(b, c), k);
    MergeKey(a, Merge(b, c), k);
    if k in b.m && b.m[k].Branch? {
      var y := b.m[k].sub;
      if k !in c.m {
        MergeIdempotent(y);
        if k in a.m && a.m[k].Branch? { MergeAgainRight(a.m[k].sub, y); }
      } else if c.m[k].Branch? {
        MergeAgainLeft(y, c.m[k].sub);
      }
    } else if k in b.m && k in c.m && k in a.m && a.m[k].Branch? && c.m[k].Branch? {
      CoveredIsAbsorbed(a.m[k].sub, c.m[k].sub);
    }
  }
}
