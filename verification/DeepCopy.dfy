// deepCopy_r: copying an ordered Hash that may hold pointers to other Hashes. Keys are
// set through path strings, so a key with a separator would be taken apart.

module DeepCopy {
  type Addr = nat

  datatype Hash = Hash(entries: seq<Entry>)
  datatype Entry = Entry(key: string, value: Value, attrs: map<string, string>)
  datatype Value =
    | Leaf(text: string)
    | Sub(hash: Hash)
    | Table(rows: seq<Hash>)
    | Pointer(target: Addr)
    | Pointers(targets: seq<Addr>)

  // The Hashes that pointers point to
  type Store = map<Addr, Hash>

  // Pointers lead somewhere, and chains of them have at most n links: the acyclic case.
  ghost predicate Resolvable(h: Hash, store: Store, n: nat)
    decreases n, h
  {
    forall i :: 0 <= i < |h.entries| ==> ResolvableValue(h.entries[i].value, store, n)
  }

  ghost predicate ResolvableValue(v: Value, store: Store, n: nat)
    decreases n, v
  {
    match v
    case Leaf(_) => true
    case Sub(h) => Resolvable(h, store, n)
    case Table(rows) => forall i :: 0 <= i < |rows| ==> Resolvable(rows[i], store, n)
    case Pointer(a) => n > 0 && a in store && Resolvable(store[a], store, n - 1)
    case Pointers(targets) =>
      forall i :: 0 <= i < |targets| ==> n > 0 && targets[i] in store && Resolvable(store[targets[i]], store, n - 1)
  }

  // ----- what a Hash stands for -----

  datatype Tree = Tree(nodes: seq<TreeNode>)
  datatype TreeNode = TreeNode(key: string, content: Content, attrs: map<string, string>)
  datatype Content = Text(text: string) | Node(tree: Tree) | Rows(trees: seq<Tree>)

  // The dereferenced content: order, keys, attributes and values, but not how they are held
  ghost function Denote(h: Hash, store: Store, n: nat): Tree
    requires Resolvable(h, store, n)
    decreases n, h
  {
    Tree(seq(|h.entries|, i requires 0 <= i < |h.entries| =>
      TreeNode(h.entries[i].key, DenoteValue(h.entries[i].value, store, n), h.entries[i].attrs)))
  }

  ghost function DenoteValue(v: Value, store: Store, n: nat): Content
    requires ResolvableValue(v, store, n)
    decreases n, v
  {
    match v
    case Leaf(text) => Text(text)
    case Sub(h) => Node(Denote(h, store, n))
    case Table(rows) => Rows(seq(|rows|, i requires 0 <= i < |rows| => Denote(rows[i], store, n)))
    case Pointer(a) => Node(Denote(store[a], store, n - 1))
    case Pointers(targets) =>
      Rows(seq(|targets|, i requires 0 <= i < |targets| => Denote(store[targets[i]], store, n - 1)))
  }

  // ----- setting a node at a path string -----

  const SEPARATOR: char := '.'

  // tokenize
  function Tokens(path: string): (tokens: seq<string>)
    ensures tokens != []
    ensures forall i :: 0 <= i < |tokens| ==> SEPARATOR !in tokens[i]
    ensures SEPARATOR !in path ==> tokens == [path]
  {
    if path == [] then [[]]
    else
      var rest := Tokens(path[1..]);
      assert path == [path[0]] + path[1..];
      if path[0] == SEPARATOR then [[]] + rest
      else [[path[0]] + rest[0]] + rest[1..]
  }

  function IndexOf(es: seq<Entry>, key: string): (i: nat)
    ensures i <= |es|
    ensures i < |es| ==> es[i].key == key
    ensures forall j :: 0 <= j < i ==> es[j].key != key
  {
    if es == [] || es[0].key == key then 0 else 1 + IndexOf(es[1..], key)
  }

  // set(path, value) and setAttributes on the node it returns: nodes on the way are
  // created or forced to be a Hash, a node that exists keeps its place.
  function SetNode(h: Hash, tokens: seq<string>, v: Value, attrs: map<string, string>): Hash
    requires tokens != []
    decreases tokens
  {
    var i := IndexOf(h.entries, tokens[0]);
    var present := i < |h.entries|;
    var entry :=
      if |tokens| == 1 then Entry(tokens[0], v, attrs)
      else
        var below := if present && h.entries[i].value.Sub? then h.entries[i].value.hash else Hash([]);
        var kept := if present then h.entries[i].attrs else map[];
        Entry(tokens[0], Sub(SetNode(below, tokens[1..], v, attrs)), kept);
    if present then Hash(h.entries[i := entry]) else Hash(h.entries + [entry])
  }

  // ----- the copy -----

  function Copy(h: Hash, store: Store, ghost n: nat): Hash
    requires Resolvable(h, store, n)
    decreases n, h, 1
  {
    CopyEntries(h, store, n, |h.entries|)
  }

  function CopyEntries(h: Hash, store: Store, ghost n: nat, k: nat): Hash
    requires Resolvable(h, store, n) && k <= |h.entries|
    decreases n, h, 0, k
  {
    if k == 0 then Hash([])
    else
      var e := h.entries[k - 1];
      SetNode(CopyEntries(h, store, n, k - 1), Tokens(e.key), CopyValue(e.value, store, n), e.attrs)
  }

  function CopyValue(v: Value, store: Store, ghost n: nat): Value
    requires ResolvableValue(v, store, n)
    decreases n, v
  {
    match v
    case Leaf(_) => v
    case Sub(h) => Sub(Copy(h, store, n))
    case Table(rows) => Table(seq(|rows|, i requires 0 <= i < |rows| => Copy(rows[i], store, n)))
    case Pointer(a) => Sub(Copy(store[a], store, n - 1))
    case Pointers(targets) =>
      Table(seq(|targets|, i requires 0 <= i < |targets| => Copy(store[targets[i]], store, n - 1)))
  }

  method DeepCopyR(h: Hash, store: Store, ghost n: nat) returns (r: Hash)
    requires Resolvable(h, store, n)
    ensures r == Copy(h, store, n)
    decreases n, h
  {
    r := Hash([]);
    for k := 0 to |h.entries|
      invariant r == CopyEntries(h, store, n, k)
    {
      var it := h.entries[k];
      assert ResolvableValue(it.value, store, n);
      var value := DeepCopyValue(it.value, store, n);
      r := SetNode(r, Tokens(it.key), value, it.attrs);
    }
  }

  // The four branches of the loop's body
  method DeepCopyValue(v: Value, store: Store, ghost n: nat) returns (r: Value)
    requires ResolvableValue(v, store, n)
    ensures r == CopyValue(v, store, n)
    decreases n, v
  {
    match v {
      case Leaf(_) =>
        r := v;
      case Sub(sub) =>
        var copy := DeepCopyR(sub, store, n);
        r := Sub(copy);
      case Table(rows) =>
        var vc: seq<Hash> := [];
        for i := 0 to |rows|
          invariant vc == seq(i, j requires 0 <= j < i => Copy(rows[j], store, n))
        {
          var copy := DeepCopyR(rows[i], store, n);
          vc := vc + [copy];
        }
        r := Table(vc);
      case Pointer(target) =>
        var copy := DeepCopyR(store[target], store, n - 1);
        r := Sub(copy);
      case Pointers(targets) =>
        var vc: seq<Hash> := [];
        for i := 0 to |targets|
          invariant vc == seq(i, j requires 0 <= j < i => Copy(store[targets[j]], store, n - 1))
        {
          var copy := DeepCopyR(store[targets[i]], store, n - 1);
          vc := vc + [copy];
        }
        r := Table(vc);
    }
  }

  // ----- the copy is free of pointers and of separators -----

  ghost predicate SelfContained(h: Hash)
    decreases h
  {
    forall i :: 0 <= i < |h.entries| ==>
      SEPARATOR !in h.entries[i].key && SelfContainedValue(h.entries[i].value)
  }

  ghost predicate SelfContainedValue(v: Value)
    decreases v
  {
    match v
    case Leaf(_) => true
    case Sub(h) => SelfContained(h)
    case Table(rows) => forall i :: 0 <= i < |rows| ==> SelfContained(rows[i])
    case Pointer(_) => false
    case Pointers(_) => false
  }

  lemma {:induction false} SetNodeSelfContained(h: Hash, tokens: seq<string>, v: Value, attrs: map<string, string>)
    requires tokens != [] && forall i :: 0 <= i < |tokens| ==> SEPARATOR !in tokens[i]
    requires SelfContained(h) && SelfContainedValue(v)
    ensures SelfContained(SetNode(h, tokens, v, attrs))
    decreases tokens
  {
    if |tokens| > 1 {
      var i := IndexOf(h.entries, tokens[0]);
      var below := if i < |h.entries| && h.entries[i].value.Sub? then h.entries[i].value.hash else Hash([]);
      assert i < |h.entries| ==> SelfContainedValue(h.entries[i].value);
      SetNodeSelfContained(below, tokens[1..], v, attrs);
    }
  }

  // Whatever is copied, and however its keys look, the result holds no pointer at any
  // depth: nothing that happens to the source later can show in it.
  lemma {:induction false} CopyIsSelfContained(h: Hash, store: Store, n: nat, k: nat)
    requires Resolvable(h, store, n) && k <= |h.entries|
    ensures SelfContained(CopyEntries(h, store, n, k))
    decreases n, h, 0, k
  {
    if k > 0 {
      var e := h.entries[k - 1];
      CopyIsSelfContained(h, store, n, k - 1);
      CopyValueIsSelfContained(e.value, store, n);
      SetNodeSelfContained(CopyEntries(h, store, n, k - 1), Tokens(e.key), CopyValue(e.value, store, n), e.attrs);
    }
  }

  lemma {:induction false} CopyValueIsSelfContained(v: Value, store: Store, n: nat)
    requires ResolvableValue(v, store, n)
    ensures SelfContainedValue(CopyValue(v, store, n))
    decreases n, v
  {
    match v
    case Leaf(_) =>
    case Sub(h) => CopyIsSelfContained(h, store, n, |h.entries|);
    case Table(rows) =>
      forall i | 0 <= i < |rows|
        ensures SelfContained(Copy(rows[i], store, n))
      {
        CopyIsSelfContained(rows[i], store, n, |rows[i].entries|);
      }
    case Pointer(a) => CopyIsSelfContained(store[a], store, n - 1, |store[a].entries|);
    case Pointers(targets) =>
      forall i | 0 <= i < |targets|
        ensures SelfContained(Copy(store[targets[i]], store, n - 1))
      {
        CopyIsSelfContained(store[targets[i]], store, n - 1, |store[targets[i]].entries|);
      }
  }

  // A self-contained Hash resolves in any store, always to the same content.
  lemma {:induction false} SelfContainedResolves(h: Hash, s1: Store, n1: nat, s2: Store, n2: nat)
    requires SelfContained(h)
    ensures Resolvable(h, s1, n1) && Resolvable(h, s2, n2)
    ensures Denote(h, s1, n1) == Denote(h, s2, n2)
    decreases h
  {
    forall i | 0 <= i < |h.entries|
      ensures ResolvableValue(h.entries[i].value, s1, n1) && ResolvableValue(h.entries[i].value, s2, n2)
      ensures DenoteValue(h.entries[i].value, s1, n1) == DenoteValue(h.entries[i].value, s2, n2)
    {
      SelfContainedValueResolves(h.entries[i].value, s1, n1, s2, n2);
    }
  }

  lemma {:induction false} SelfContainedValueResolves(v: Value, s1: Store, n1: nat, s2: Store, n2: nat)
    requires SelfContainedValue(v)
    ensures ResolvableValue(v, s1, n1) && ResolvableValue(v, s2, n2)
    ensures DenoteValue(v, s1, n1) == DenoteValue(v, s2, n2)
    decreases v
  {
    match v
    case Leaf(_) =>
    case Sub(h) => SelfContainedResolves(h, s1, n1, s2, n2);
    case Table(rows) =>
      forall i | 0 <= i < |rows|
        ensures Resolvable(rows[i], s1, n1) && Resolvable(rows[i], s2, n2)
        ensures Denote(rows[i], s1, n1) == Denote(rows[i], s2, n2)
      {
        SelfContainedResolves(rows[i], s1, n1, s2, n2);
      }
  }

  // ----- the copy is faithful exactly if no key has a separator -----

  ghost predicate PlainKeys(t: Tree)
    decreases t
  {
    forall i :: 0 <= i < |t.nodes| ==> SEPARATOR !in t.nodes[i].key && PlainContent(t.nodes[i].content)
  }

  ghost predicate PlainContent(c: Content)
    decreases c
  {
    match c
    case Text(_) => true
    case Node(t) => PlainKeys(t)
    case Rows(trees) => forall i :: 0 <= i < |trees| ==> PlainKeys(trees[i])
  }

  // The keys of a Hash are distinct, in every Hash it contains or points to.
  ghost predicate DistinctKeys(t: Tree)
    decreases t
  {
    && (forall i, j :: 0 <= i < j < |t.nodes| ==> t.nodes[i].key != t.nodes[j].key)
    && (forall i :: 0 <= i < |t.nodes| ==> DistinctContent(t.nodes[i].content))
  }

  ghost predicate DistinctContent(c: Content)
    decreases c
  {
    match c
    case Text(_) => true
    case Node(t) => DistinctKeys(t)
    case Rows(trees) => forall i :: 0 <= i < |trees| ==> DistinctKeys(trees[i])
  }

  ghost function Prefix(t: Tree, k: nat): Tree
    requires k <= |t.nodes|
  {
    Tree(t.nodes[..k])
  }

  // The keys of a Hash are distinct, at every depth; here none has a separator either.
  ghost predicate Copyable(h: Hash, store: Store, n: nat) {
    Resolvable(h, store, n) && PlainKeys(Denote(h, store, n)) && DistinctKeys(Denote(h, store, n))
  }

  ghost predicate FaithfulUpTo(h: Hash, store: Store, n: nat, k: nat) {
    && Resolvable(h, store, n) && k <= |h.entries|
    && var c := CopyEntries(h, store, n, k);
       Resolvable(c, map[], 0) && Denote(c, map[], 0) == Prefix(Denote(h, store, n), k)
  }

  ghost predicate FaithfullyCopied(v: Value, store: Store, n: nat) {
    && ResolvableValue(v, store, n)
    && ResolvableValue(CopyValue(v, store, n), map[], 0)
    && DenoteValue(CopyValue(v, store, n), map[], 0) == DenoteValue(v, store, n)
  }

  // If every value is copied faithfully, so are the entries one after the other.
  lemma {:induction false} FaithfulEntries(h: Hash, store: Store, n: nat, k: nat)
    requires Copyable(h, store, n) && k <= |h.entries|
    requires forall i :: 0 <= i < k ==> FaithfullyCopied(h.entries[i].value, store, n)
    ensures FaithfulUpTo(h, store, n, k)
    decreases k
  {
    if k == 0 {
      NoEntry(h, store, n);
    } else {
      FaithfulEntries(h, store, n, k - 1);
      OneMoreEntry(h, store, n, k);
    }
  }

  lemma NoEntry(h: Hash, store: Store, n: nat)
    requires Resolvable(h, store, n)
    ensures FaithfulUpTo(h, store, n, 0)
  {
    assert Denote(Hash([]), map[], 0).nodes == [];
  }

  lemma OneMoreEntry(h: Hash, store: Store, n: nat, k: nat)
    requires Copyable(h, store, n) && 0 < k <= |h.entries|
    requires FaithfulUpTo(h, store, n, k - 1) && FaithfullyCopied(h.entries[k - 1].value, store, n)
    ensures FaithfulUpTo(h, store, n, k)
  {
    var e, t := h.entries[k - 1], Denote(h, store, n);
    var before, v := CopyEntries(h, store, n, k - 1), CopyValue(e.value, store, n);
    NodeOfEntry(h, store, n, k - 1);
    KeyIsNew(before, t, k - 1);
    SetNewNode(before, e.key, v, e.attrs);
    assert CopyEntries(h, store, n, k) == Hash(before.entries + [Entry(e.key, v, e.attrs)]);
    PrefixGrows(before, Entry(e.key, v, e.attrs), t, k - 1);
  }

  lemma PrefixGrows(before: Hash, e: Entry, t: Tree, k: nat)
    requires Resolvable(before, map[], 0) && ResolvableValue(e.value, map[], 0)
    requires k < |t.nodes| && Denote(before, map[], 0) == Prefix(t, k)
    requires t.nodes[k] == TreeNode(e.key, DenoteValue(e.value, map[], 0), e.attrs)
    ensures var c := Hash(before.entries + [e]);
            Resolvable(c, map[], 0) && Denote(c, map[], 0) == Prefix(t, k + 1)
  {
    AppendedEntry(before, e);
    assert t.nodes[..k + 1] == t.nodes[..k] + [t.nodes[k]];
  }

  lemma NodeOfEntry(h: Hash, store: Store, n: nat, k: nat)
    requires Resolvable(h, store, n) && k < |h.entries|
    requires DistinctKeys(Denote(h, store, n))
    ensures ResolvableValue(h.entries[k].value, store, n)
    ensures var e := h.entries[k];
            var content := DenoteValue(e.value, store, n);
            && Denote(h, store, n).nodes[k] == TreeNode(e.key, content, e.attrs)
            && DistinctContent(content)
            && (PlainKeys(Denote(h, store, n)) ==> SEPARATOR !in e.key && PlainContent(content))
  {
    var node := Denote(h, store, n).nodes[k];
    assert DistinctContent(node.content);
  }

  lemma AppendedEntry(before: Hash, e: Entry)
    requires Resolvable(before, map[], 0) && ResolvableValue(e.value, map[], 0)
    ensures var c := Hash(before.entries + [e]);
            && Resolvable(c, map[], 0)
            && Denote(c, map[], 0).nodes ==
               Denote(before, map[], 0).nodes + [TreeNode(e.key, DenoteValue(e.value, map[], 0), e.attrs)]
  {}

  lemma SetNewNode(h: Hash, key: string, v: Value, attrs: map<string, string>)
    requires SEPARATOR !in key && IndexOf(h.entries, key) == |h.entries|
    ensures SetNode(h, Tokens(key), v, attrs) == Hash(h.entries + [Entry(key, v, attrs)])
  {}

  lemma KeyIsNew(before: Hash, t: Tree, k: nat)
    requires Resolvable(before, map[], 0) && k < |t.nodes|
    requires Denote(before, map[], 0) == Prefix(t, k) && DistinctKeys(t)
    ensures IndexOf(before.entries, t.nodes[k].key) == |before.entries|
  {
    assert |before.entries| == |Denote(before, map[], 0).nodes| == k;
    forall j | 0 <= j < |before.entries|
      ensures before.entries[j].key != t.nodes[k].key
    {
      assert before.entries[j].key == Denote(before, map[], 0).nodes[j].key == t.nodes[j].key;
    }
  }

  lemma {:induction false} FaithfulValue(v: Value, store: Store, n: nat)
    requires ResolvableValue(v, store, n)
    requires PlainContent(DenoteValue(v, store, n)) && DistinctContent(DenoteValue(v, store, n))
    ensures var c := CopyValue(v, store, n);
            ResolvableValue(c, map[], 0) && DenoteValue(c, map[], 0) == DenoteValue(v, store, n)
    decreases n, v
  {
    match v
    case Leaf(_) =>
    case Sub(h) => FaithfulCopy(h, store, n);
    case Table(rows) =>
      var trees := DenoteValue(v, store, n).trees;
      forall i | 0 <= i < |rows|
        ensures Resolvable(Copy(rows[i], store, n), map[], 0)
        ensures Denote(Copy(rows[i], store, n), map[], 0) == trees[i]
      {
        assert trees[i] == Denote(rows[i], store, n);
        FaithfulCopy(rows[i], store, n);
      }
    case Pointer(a) => FaithfulCopy(store[a], store, n - 1);
    case Pointers(targets) =>
      var trees := DenoteValue(v, store, n).trees;
      forall i | 0 <= i < |targets|
        ensures Resolvable(Copy(store[targets[i]], store, n - 1), map[], 0)
        ensures Denote(Copy(store[targets[i]], store, n - 1), map[], 0) == trees[i]
      {
        assert trees[i] == Denote(store[targets[i]], store, n - 1);
        FaithfulCopy(store[targets[i]], store, n - 1);
      }
  }

  lemma FaithfulCopy(h: Hash, store: Store, n: nat)
    requires Resolvable(h, store, n)
    requires PlainKeys(Denote(h, store, n)) && DistinctKeys(Denote(h, store, n))
    ensures Resolvable(Copy(h, store, n), map[], 0)
    ensures Denote(Copy(h, store, n), map[], 0) == Denote(h, store, n)
    decreases n, h, 1
  {
    forall i | 0 <= i < |h.entries|
      ensures FaithfullyCopied(h.entries[i].value, store, n)
    {
      NodeOfEntry(h, store, n, i);
      FaithfulValue(h.entries[i].value, store, n);
    }
    FaithfulEntries(h, store, n, |h.entries|);
    assert Prefix(Denote(h, store, n), |h.entries|) == Denote(h, store, n);
  }

  lemma {:induction false} SelfContainedIsPlain(h: Hash)
    requires SelfContained(h) && Resolvable(h, map[], 0)
    ensures PlainKeys(Denote(h, map[], 0))
    decreases h
  {
    forall i | 0 <= i < |h.entries|
      ensures PlainContent(DenoteValue(h.entries[i].value, map[], 0))
    {
      SelfContainedValueIsPlain(h.entries[i].value);
    }
  }

  lemma {:induction false} SelfContainedValueIsPlain(v: Value)
    requires SelfContainedValue(v) && ResolvableValue(v, map[], 0)
    ensures PlainContent(DenoteValue(v, map[], 0))
    decreases v
  {
    match v
    case Leaf(_) =>
    case Sub(h) => SelfContainedIsPlain(h);
    case Table(rows) =>
      forall i | 0 <= i < |rows|
        ensures PlainKeys(Denote(rows[i], map[], 0))
      {
        SelfContainedIsPlain(rows[i]);
      }
  }

  // The copy stands for the dereferenced source, with its order, attributes and values,
  // exactly if no key in it has a separator; and it keeps standing for the same content
  // in whatever store, that is, after any change behind the source's pointers.
  lemma CopyIsFaithful(h: Hash, store: Store, n: nat, later: Store, m: nat)
    requires Resolvable(h, store, n) && DistinctKeys(Denote(h, store, n))
    ensures var c := Copy(h, store, n);
            && Resolvable(c, later, m)
            && (Denote(c, later, m) == Denote(h, store, n) <==> PlainKeys(Denote(h, store, n)))
  {
    var c := Copy(h, store, n);
    CopyIsSelfContained(h, store, n, |h.entries|);
    SelfContainedResolves(c, later, m, map[], 0);
    SelfContainedIsPlain(c);
    if PlainKeys(Denote(h, store, n)) {
      FaithfulCopy(h, store, n);
    }
  }

  ghost predicate OwnsItsContent(h: Hash, store: Store, n: nat) {
    SelfContained(h) && Resolvable(h, store, n) && DistinctKeys(Denote(h, store, n))
  }

  // A Hash whose values are copied to themselves is copied to itself, entry by entry.
  lemma {:induction false} EntriesAreIdentity(h: Hash, store: Store, n: nat, k: nat)
    requires OwnsItsContent(h, store, n) && k <= |h.entries|
    requires forall i :: 0 <= i < k ==> CopiedToItself(h.entries[i].value, store, n)
    ensures IdentityUpTo(h, store, n, k)
    decreases k
  {
    if k > 0 {
      EntriesAreIdentity(h, store, n, k - 1);
      OneMoreIdentity(h, store, n, k);
    }
  }

  ghost predicate CopiedToItself(v: Value, store: Store, n: nat) {
    ResolvableValue(v, store, n) && CopyValue(v, store, n) == v
  }

  ghost predicate IdentityUpTo(h: Hash, store: Store, n: nat, k: nat) {
    && Resolvable(h, store, n) && k <= |h.entries|
    && CopyEntries(h, store, n, k) == Hash(h.entries[..k])
  }

  lemma OneMoreIdentity(h: Hash, store: Store, n: nat, k: nat)
    requires OwnsItsContent(h, store, n) && 0 < k <= |h.entries|
    requires IdentityUpTo(h, store, n, k - 1) && CopiedToItself(h.entries[k - 1].value, store, n)
    ensures IdentityUpTo(h, store, n, k)
  {
    var e := h.entries[k - 1];
    NodeOfEntry(h, store, n, k - 1);
    KeyIsNewIn(h, store, n, k - 1);
    SetNewNode(Hash(h.entries[..k - 1]), e.key, e.value, e.attrs);
    assert h.entries[..k] == h.entries[..k - 1] + [e];
  }

  // A Hash that is already self-contained is copied to itself.
  lemma {:induction false} CopyIsIdentity(h: Hash, store: Store, n: nat)
    requires OwnsItsContent(h, store, n)
    ensures Copy(h, store, n) == h
    decreases h
  {
    forall i | 0 <= i < |h.entries|
      ensures CopiedToItself(h.entries[i].value, store, n)
    {
      NodeOfEntry(h, store, n, i);
      CopyValueIsIdentity(h.entries[i].value, store, n);
    }
    EntriesAreIdentity(h, store, n, |h.entries|);
    assert h.entries[..|h.entries|] == h.entries;
  }

  lemma KeyIsNewIn(h: Hash, store: Store, n: nat, k: nat)
    requires Resolvable(h, store, n) && k < |h.entries|
    requires DistinctKeys(Denote(h, store, n))
    ensures IndexOf(h.entries[..k], h.entries[k].key) == k
  {
    var t := Denote(h, store, n);
    forall j | 0 <= j < k
      ensures h.entries[..k][j].key != h.entries[k].key
    {
      assert t.nodes[j].key == h.entries[j].key && t.nodes[k].key == h.entries[k].key;
    }
  }

  lemma {:induction false} CopyValueIsIdentity(v: Value, store: Store, n: nat)
    requires SelfContainedValue(v) && ResolvableValue(v, store, n)
    requires DistinctContent(DenoteValue(v, store, n))
    ensures CopyValue(v, store, n) == v
    decreases v
  {
    match v
    case Leaf(_) =>
    case Sub(h) =>
      CopyIsIdentity(h, store, n);
    case Table(rows) =>
      var trees := DenoteValue(v, store, n).trees;
      forall i | 0 <= i < |rows|
        ensures Copy(rows[i], store, n) == rows[i]
      {
        assert DistinctKeys(trees[i]);
        CopyIsIdentity(rows[i], store, n);
      }
      assert CopyValue(v, store, n).rows == rows;
  }

  // Copying a faithful copy again changes nothing.
  lemma CopyIsIdempotent(h: Hash, store: Store, n: nat, later: Store, m: nat)
    requires Resolvable(h, store, n)
    requires DistinctKeys(Denote(h, store, n)) && PlainKeys(Denote(h, store, n))
    ensures Resolvable(Copy(h, store, n), later, m)
    ensures Copy(Copy(h, store, n), later, m) == Copy(h, store, n)
  {
    var c := Copy(h, store, n);
    CopyIsFaithful(h, store, n, later, m);
    CopyIsSelfContained(h, store, n, |h.entries|);
    CopyIsIdentity(c, later, m);
  }

  lemma TokensAB()
    ensures Tokens("a.b") == ["a", "b"]
  {
    assert "b"[1..] == "" && ".b"[1..] == "b" && "a.b"[1..] == ".b";
    assert ['b'] + Tokens("")[0] == "b" && ['a'] + "" == "a";
    assert Tokens("b") == ["b"];
    assert Tokens(".b") == [""] + ["b"];
  }

  // ----- entry by entry -----

  // The entries of a copy, if all keys are plain: same order, keys and attributes
  lemma {:induction false} CopiedEntries(h: Hash, store: Store, n: nat, k: nat)
    requires Copyable(h, store, n) && k <= |h.entries|
    ensures EntriesCopied(h, store, n, k)
    decreases k
  {
    if k > 0 {
      CopiedEntries(h, store, n, k - 1);
      OneMoreCopied(h, store, n, k);
    }
  }

  ghost predicate EntriesCopied(h: Hash, store: Store, n: nat, k: nat) {
    && Resolvable(h, store, n) && k <= |h.entries|
    && var es := CopyEntries(h, store, n, k).entries;
       && |es| == k
       && forall i :: 0 <= i < k ==> IsCopyOf(es[i], h.entries[i], store, n)
  }

  ghost predicate IsCopyOf(copy: Entry, e: Entry, store: Store, n: nat) {
    && copy.key == e.key && copy.attrs == e.attrs
    && ResolvableValue(e.value, store, n)
    && match e.value
       case Leaf(_) => copy.value == e.value
       case Sub(h) => copy.value == Sub(Copy(h, store, n))
       case Pointer(a) => copy.value == Sub(Copy(store[a], store, n - 1))
       case Table(rows) =>
         && copy.value.Table? && |copy.value.rows| == |rows|
         && forall i :: 0 <= i < |rows| ==> copy.value.rows[i] == Copy(rows[i], store, n)
       case Pointers(targets) =>
         && copy.value.Table? && |copy.value.rows| == |targets|
         && forall i :: 0 <= i < |targets| ==> copy.value.rows[i] == Copy(store[targets[i]], store, n - 1)
  }

  lemma OneMoreCopied(h: Hash, store: Store, n: nat, k: nat)
    requires Copyable(h, store, n) && 0 < k <= |h.entries| && EntriesCopied(h, store, n, k - 1)
    ensures EntriesCopied(h, store, n, k)
  {
    var e, before := h.entries[k - 1], CopyEntries(h, store, n, k - 1);
    NodeOfEntry(h, store, n, k - 1);
    var v := CopyValue(e.value, store, n);
    forall j | 0 <= j < |before.entries|
      ensures before.entries[j].key != e.key
    {
      var t := Denote(h, store, n);
      assert IsCopyOf(before.entries[j], h.entries[j], store, n);
      assert t.nodes[j].key == h.entries[j].key && t.nodes[k - 1].key == e.key;
    }
    SetNewNode(before, e.key, v, e.attrs);
    var es := CopyEntries(h, store, n, k).entries;
    assert es == before.entries + [Entry(e.key, v, e.attrs)];
    assert IsCopyOf(es[k - 1], e, store, n);
  }

  // Every entry becomes one entry, and pointers become what they point to.
  lemma CopyIsEntrywise(h: Hash, store: Store, n: nat)
    requires Copyable(h, store, n)
    ensures |Copy(h, store, n).entries| == |h.entries|
    ensures forall i :: 0 <= i < |h.entries| ==> IsCopyOf(Copy(h, store, n).entries[i], h.entries[i], store, n)
  {
    CopiedEntries(h, store, n, |h.entries|);
  }

  // The tokens of a path, joined by the separator
  ghost function Joined(tokens: seq<string>): string
    requires tokens != []
  {
    if |tokens| == 1 then tokens[0] else tokens[0] + [SEPARATOR] + Joined(tokens[1..])
  }

  lemma {:induction false} TokensJoin(path: string)
    ensures Joined(Tokens(path)) == path
    decreases |path|
  {
    if path != [] {
      var rest := Tokens(path[1..]);
      TokensJoin(path[1..]);
      if path[0] == SEPARATOR {
        assert Tokens(path) == [[]] + rest && Tokens(path)[1..] == rest;
      } else {
        assert Tokens(path)[1..] == rest[1..] && Tokens(path)[0] == [path[0]] + rest[0];
      }
    }
  }

  const DottedKey: Hash := Hash([Entry("a.b", Leaf("1"), map[])])
  const TakenApart: Hash := Hash([Entry("a", Sub(Hash([Entry("b", Leaf("1"), map[])])), map[])])

  lemma SetAtDottedKey()
    ensures SetNode(Hash([]), Tokens("a.b"), Leaf("1"), map[]) == TakenApart
  {
    TokensAB();
    assert ["a", "b"][1..] == ["b"];
    assert SetNode(Hash([]), ["b"], Leaf("1"), map[]) == Hash([Entry("b", Leaf("1"), map[])]);
  }

  // A key with a separator is taken apart: the copy has a node a with a leaf b instead.
  lemma SeparatorIsTakenApart()
    ensures Resolvable(DottedKey, map[], 0) && Resolvable(TakenApart, map[], 0)
    ensures Copy(DottedKey, map[], 0) == TakenApart
    ensures Denote(TakenApart, map[], 0) != Denote(DottedKey, map[], 0)
  {
    SetAtDottedKey();
    assert ResolvableValue(Leaf("1"), map[], 0);
    assert CopyEntries(DottedKey, map[], 0, 0) == Hash([]);
    assert CopyEntries(DottedKey, map[], 0, 1) == TakenApart;
    assert Denote(TakenApart, map[], 0).nodes[0].key == "a" && Denote(DottedKey, map[], 0).nodes[0].key == "a.b";
  }
}
