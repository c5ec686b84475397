/** The trie as it lies in memory: border nodes and layer indices at addresses, rewritten
    in place, and proved to form the trie values of module Trie. */
module TrieMemory {
  import opened KeySlice
  import opened Trie

  type Ptr = nat

  /** `char *keySuffix`: NULL, or the bytes it points to. */
  datatype CharPtr = NoChars | Chars(bytes: Key)

  /** `prefixFlags` as the set of its one bits; bit i says that a key of length i is
      stored. `suffixLink` is the value of the one longer key if `keySuffix` is not NULL,
      and else the next layer's index or NULL. */
  datatype BNode = BNode(prefixFlags: set<nat>, prefixLinks: seq<Value>, suffixLink: Ptr, keySuffix: CharPtr)

  /** All of memory. A border node and the index below it are at home on the path of
      slices that leads to them; homes are not stored, they keep parts of the trie apart. */
  datatype Mem = Mem(nodes: map<Ptr, BNode>, indices: map<Ptr, Index>,
    nodeHome: map<Ptr, seq<nat>>, indexHome: map<Ptr, seq<nat>>)

  ghost predicate MemOk(m: Mem) {
    m.nodes.Keys == m.nodeHome.Keys && m.indices.Keys == m.indexHome.Keys
  }

  // ---- the trie that memory holds ----

  ghost function PrefixOf(n: BNode): map<nat, Value> {
    map i | i in n.prefixFlags && i < |n.prefixLinks| :: n.prefixLinks[i]
  }

  ghost predicate RepLayer(m: Mem, path: seq<nat>, p: Ptr, layer: Layer)
    decreases layer
  {
    && p != NULL && p in m.indices && p in m.indexHome && m.indexHome[p] == path
    && m.indices[p].Keys == layer.nodes.Keys
    && forall s <- layer.nodes :: RepBorder(m, path + [s], m.indices[p][s], layer.nodes[s])
  }

  ghost predicate RepBorder(m: Mem, path: seq<nat>, p: Ptr, b: Border)
    decreases b
  {
    && p in m.nodes && p in m.nodeHome && m.nodeHome[p] == path
    && |m.nodes[p].prefixLinks| == SLICE + 1 && (forall i <- m.nodes[p].prefixFlags :: i <= SLICE)
    && PrefixOf(m.nodes[p]) == b.prefix
    && RepTail(m, path, m.nodes[p], b.tail)
  }

  ghost predicate RepTail(m: Mem, path: seq<nat>, n: BNode, tail: Tail)
    decreases tail
  {
    match tail
    case NoTail => n.keySuffix.NoChars? && n.suffixLink == NULL
    case Suffix(rest, v) => n.keySuffix == Chars(rest) && n.suffixLink == v
    case Link(sub) => n.keySuffix.NoChars? && RepLayer(m, path, n.suffixLink, sub)
  }

  predicate Under(path: seq<nat>, home: seq<nat>) { path <= home }

  ghost predicate NodeKept(m: Mem, m': Mem, p: Ptr) {
    p in m.nodes && p in m.nodeHome && p in m'.nodes && m'.nodes[p] == m.nodes[p] && p in m'.nodeHome && m'.nodeHome[p] == m.nodeHome[p]
  }

  ghost predicate IndexKept(m: Mem, m': Mem, p: Ptr) {
    p in m.indices && p in m.indexHome && p in m'.indices && m'.indices[p] == m.indices[p] && p in m'.indexHome && m'.indexHome[p] == m.indexHome[p]
  }

  /** Both memories hold the same below `path`: the indices at home there or further down
      and the border nodes further down. */
  ghost predicate Same(m: Mem, m': Mem, path: seq<nat>) {
    && (forall p | p in m.nodes && p in m.nodeHome && Under(path, m.nodeHome[p]) && m.nodeHome[p] != path :: NodeKept(m, m', p))
    && (forall p | p in m.indices && p in m.indexHome && Under(path, m.indexHome[p]) :: IndexKept(m, m', p))
  }

  lemma {:induction false} FrameLayer(m: Mem, m': Mem, path: seq<nat>, p: Ptr, layer: Layer)
    requires RepLayer(m, path, p, layer) && Same(m, m', path)
    ensures RepLayer(m', path, p, layer)
    decreases layer
  {
    assert Under(path, m.indexHome[p]) && IndexKept(m, m', p);
    forall s <- layer.nodes ensures RepBorder(m', path + [s], m'.indices[p][s], layer.nodes[s]) {
      var q := m.indices[p][s];
      assert RepBorder(m, path + [s], q, layer.nodes[s]);
      assert Under(path, m.nodeHome[q]) && NodeKept(m, m', q);
      SameBelow(m, m', path, path + [s]);
      FrameBorder(m, m', path + [s], q, layer.nodes[s]);
    }
  }

  lemma {:induction false} FrameBorder(m: Mem, m': Mem, path: seq<nat>, p: Ptr, b: Border)
    requires RepBorder(m, path, p, b) && Same(m, m', path) && NodeKept(m, m', p)
    ensures RepBorder(m', path, p, b)
    decreases b
  {
    FrameTail(m, m', path, m.nodes[p], b.tail);
  }

  lemma {:induction false} FrameTail(m: Mem, m': Mem, path: seq<nat>, n: BNode, tail: Tail)
    requires RepTail(m, path, n, tail) && Same(m, m', path)
    ensures RepTail(m', path, n, tail)
    decreases tail
  {
    if tail.Link? { FrameLayer(m, m', path, n.suffixLink, tail.layer); }
  }

  lemma SameBelow(m: Mem, m': Mem, path: seq<nat>, path': seq<nat>)
    requires Same(m, m', path) && Under(path, path')
    ensures Same(m, m', path')
  {
    forall p | p in m.nodes && p in m.nodeHome && Under(path', m.nodeHome[p]) && m.nodeHome[p] != path' ensures NodeKept(m, m', p) {
      assert Under(path, m.nodeHome[p]);
    }
    forall p | p in m.indices && p in m.indexHome && Under(path', m.indexHome[p]) ensures IndexKept(m, m', p) {
      assert Under(path, m.indexHome[p]);
    }
  }

  /** Nothing but what is at home below `path` has changed; the border node at home at
      `path` itself only if `node` says so. */
  ghost predicate Changed(m: Mem, m': Mem, path: seq<nat>, node: bool) {
    && (forall p | p in m.nodes && p in m.nodeHome && !(Under(path, m.nodeHome[p]) && (node || m.nodeHome[p] != path)) ::
         NodeKept(m, m', p))
    && (forall p | p in m.indices && p in m.indexHome && !Under(path, m.indexHome[p]) :: IndexKept(m, m', p))
  }

  /** Everything is still there; there may be more. */
  ghost predicate Grown(m: Mem, m': Mem) {
    && (forall p | p in m.nodes && p in m.nodeHome :: NodeKept(m, m', p))
    && (forall p | p in m.indices && p in m.indexHome :: IndexKept(m, m', p))
  }

  lemma GrownSame(m: Mem, m': Mem, path: seq<nat>)
    requires Grown(m, m')
    ensures Same(m, m', path) && Changed(m, m', path, false)
  {
  }

  /** The border node of slice `s` has changed, the others are as they were. */
  lemma LayerChanged(m: Mem, m': Mem, path: seq<nat>, p: Ptr, layer: Layer, s: nat, b: Border)
    requires RepLayer(m, path, p, layer) && s in layer.nodes && Changed(m, m', path + [s], true)
    requires RepBorder(m', path + [s], m.indices[p][s], b)
    ensures RepLayer(m', path, p, Layer(layer.nodes[s := b]))
  {
    assert !Under(path + [s], path) && IndexKept(m, m', p);
    forall t | t in layer.nodes && t != s ensures RepBorder(m', path + [t], m.indices[p][t], layer.nodes[t]) {
      OtherSlice(m, m', path, s, t, m.indices[p][t], layer.nodes[t]);
    }
  }

  lemma SameBelowPut(m: Mem, m': Mem, path: seq<nat>, p: Ptr, s: nat, q: Ptr, t: nat)
    requires MemOk(m) && p in m.indices && p in m.indexHome && m.indexHome[p] == path
    requires m' == m.(indices := IndexWith(m.indices, p, s, q))
    ensures Same(m, m', path + [t])
  {
    assert !Under(path + [t], path);
  }

  /** A border node has been put into the index. */
  lemma LayerPut(m: Mem, m': Mem, path: seq<nat>, p: Ptr, layer: Layer, s: nat, q: Ptr, b: Border)
    requires MemOk(m) && RepLayer(m, path, p, layer) && RepBorder(m, path + [s], q, b)
    requires m' == m.(indices := IndexWith(m.indices, p, s, q))
    ensures RepLayer(m', path, p, Layer(layer.nodes[s := b])) && Changed(m, m', path, false)
  {
    var layer' := Layer(layer.nodes[s := b]);
    forall t | t in layer'.nodes ensures RepBorder(m', path + [t], m'.indices[p][t], layer'.nodes[t]) {
      SameBelowPut(m, m', path, p, s, q, t);
      FrameBorder(m, m', path + [t], m'.indices[p][t], layer'.nodes[t]);
    }
  }

  lemma OtherSlice(m: Mem, m': Mem, path: seq<nat>, s: nat, t: nat, q: Ptr, b: Border)
    requires RepBorder(m, path + [t], q, b) && Changed(m, m', path + [s], true) && s != t
    ensures RepBorder(m', path + [t], q, b)
  {
    forall home: seq<nat> | Under(path + [t], home) ensures !Under(path + [s], home) {
      assert home[|path|] == t && (path + [s])[|path|] == s;
    }
    assert Under(path + [t], m.nodeHome[q]) && NodeKept(m, m', q);
    FrameBorder(m, m', path + [t], q, b);
  }

  /** A change at a border node below `path` is a change below `path`. */
  lemma ChangedAbove(m: Mem, m': Mem, path: seq<nat>, s: nat, node: bool)
    requires Changed(m, m', path + [s], node)
    ensures Changed(m, m', path, false)
  {
    forall home: seq<nat> | !Under(path, home) || home == path ensures !Under(path + [s], home) {
    }
  }

  // ---- one border node ----

  /** Only the border node `p` has changed. */
  ghost predicate OnlyNode(m: Mem, m': Mem, p: Ptr) {
    && p in m.nodes && m' == m.(nodes := m'.nodes) && m'.nodes.Keys == m.nodes.Keys
    && forall q | q in m.nodes && q != p :: m'.nodes[q] == m.nodes[q]
  }

  lemma OnlyNodeChanged(m: Mem, m': Mem, path: seq<nat>, p: Ptr)
    requires MemOk(m) && OnlyNode(m, m', p) && m.nodeHome[p] == path
    ensures MemOk(m') && Same(m, m', path) && Changed(m, m', path, true)
  {
  }

  lemma FreshNode(m: Mem, m': Mem, m'': Mem, p: Ptr)
    requires MemOk(m') && Grown(m, m') && p !in m.nodes && OnlyNode(m', m'', p)
    ensures Grown(m, m'')
  {
    forall q | q in m.nodes && q in m.nodeHome ensures NodeKept(m, m'', q) { assert NodeKept(m, m', q); }
    forall q | q in m.indices && q in m.indexHome ensures IndexKept(m, m'', q) { assert IndexKept(m, m', q); }
  }

  lemma GrownTrans(m: Mem, m': Mem, m'': Mem)
    requires Grown(m, m') && Grown(m', m'')
    ensures Grown(m, m'')
  {
    forall q | q in m.nodes && q in m.nodeHome ensures NodeKept(m, m'', q) { assert NodeKept(m, m', q) && NodeKept(m', m'', q); }
    forall q | q in m.indices && q in m.indexHome ensures IndexKept(m, m'', q) { assert IndexKept(m, m', q) && IndexKept(m', m'', q); }
  }

  lemma GrownBorder(m: Mem, m': Mem, path: seq<nat>, p: Ptr, b: Border)
    requires Grown(m, m') && RepBorder(m, path, p, b)
    ensures RepBorder(m', path, p, b)
  {
    GrownSame(m, m', path);
    assert NodeKept(m, m', p);
    FrameBorder(m, m', path, p, b);
  }

  lemma PrefixSet(m: Mem, m': Mem, path: seq<nat>, p: Ptr, b: Border, i: nat, v: Value)
    requires MemOk(m) && RepBorder(m, path, p, b) && i <= SLICE
    requires OnlyNode(m, m', p)
    requires m'.nodes[p] == m.nodes[p].(prefixFlags := m.nodes[p].prefixFlags + {i}, prefixLinks := m.nodes[p].prefixLinks[i := v])
    ensures RepBorder(m', path, p, b.(prefix := b.prefix[i := v]))
  {
    OnlyNodeChanged(m, m', path, p);
    FrameTail(m, m', path, m.nodes[p], b.tail);
    assert PrefixOf(m'.nodes[p]) == b.prefix[i := v];
  }

  lemma TailSet(m: Mem, m': Mem, path: seq<nat>, p: Ptr, b: Border, tail: Tail)
    requires MemOk(m) && RepBorder(m, path, p, b) && OnlyNode(m, m', p)
    requires m'.nodes[p] == m.nodes[p].(keySuffix := m'.nodes[p].keySuffix, suffixLink := m'.nodes[p].suffixLink)
    requires RepTail(m', path, m'.nodes[p], tail)
    ensures RepBorder(m', path, p, b.(tail := tail))
  {
  }

  type Index = map<nat, Ptr>

  function IndexWith(indices: map<Ptr, Index>, index: Ptr, s: nat, p: Ptr): map<Ptr, Index>
    requires index in indices
  {
    var entries: Index := indices[index];
    var entries': Index := entries[s := p];
    indices[index := entries']
  }

  class TrieStore {
    var nodes: map<Ptr, BNode>
    var indices: map<Ptr, Index>
    var unused: Ptr
    ghost var nodeHome: map<Ptr, seq<nat>>
    ghost var indexHome: map<Ptr, seq<nat>>

    ghost function Snap(): Mem
      reads this
    {
      Mem(nodes, indices, nodeHome, indexHome)
    }

    /** `surely_malloc` hands out an address above all those in use. */
    ghost predicate Ok()
      reads this
    {
      && MemOk(Snap()) && unused > NULL
      && (forall p <- nodes :: p < unused) && (forall p <- indices :: p < unused)
    }

    constructor ()
      ensures Ok() && nodes == map[] && indices == map[]
    {
      nodes, indices, unused, nodeHome, indexHome := map[], map[], 1, map[], map[];
    }

    /** `BN_NewBorderNode` */
    method NewBorderNode(ghost home: seq<nat>) returns (p: Ptr)
      requires Ok()
      modifies this
      ensures Ok() && Grown(old(Snap()), Snap()) && p !in old(nodes) && p < unused
      ensures RepBorder(Snap(), home, p, EmptyBorder)
      ensures indices == old(indices)
    {
      var links: seq<Value>, i := [], 0;
      while i < SLICE + 1
        invariant i <= SLICE + 1 && |links| == i
      {
        links := links + [NULL];
        i := i + 1;
      }
      p := unused;
      unused := unused + 1;
      nodes := nodes[p := BNode({}, links, NULL, NoChars)];
      nodeHome := nodeHome[p := home];
    }

    /** `Iempty` */
    method NewIndex(ghost home: seq<nat>) returns (p: Ptr)
      requires Ok()
      modifies this
      ensures Ok() && Grown(old(Snap()), Snap()) && p !in old(indices)
      ensures RepLayer(Snap(), home, p, EmptyLayer)
    {
      p := unused;
      unused := unused + 1;
      indices := indices[p := map[]];
      indexHome := indexHome[p := home];
    }

    /** `Iput`, by the contract of an ordered map. */
    method IndexPut(index: Ptr, s: nat, p: Ptr)
      requires Ok() && index in indices
      modifies this`indices
      ensures Ok() && indices == IndexWith(old(indices), index, s, p)
    {
      indices := IndexWith(indices, index, s, p);
    }

    /** `BN_SetPrefixValue` */
    method SetPrefixValue(p: Ptr, i: nat, v: Value, ghost path: seq<nat>, ghost b: Border)
      requires Ok() && i <= SLICE && RepBorder(Snap(), path, p, b)
      modifies this`nodes
      ensures Ok() && OnlyNode(old(Snap()), Snap(), p)
      ensures RepBorder(Snap(), path, p, b.(prefix := b.prefix[i := v]))
    {
      var n := nodes[p];
      ghost var m := Snap();
      nodes := nodes[p := n.(prefixFlags := n.prefixFlags + {i}, prefixLinks := n.prefixLinks[i := v])];
      PrefixSet(m, Snap(), path, p, b, i, v);
    }

    /** `BN_SetSuffixValue` */
    method SetSuffixValue(p: Ptr, suffix: Key, v: Value, ghost path: seq<nat>, ghost b: Border)
      requires Ok() && RepBorder(Snap(), path, p, b)
      modifies this`nodes
      ensures Ok() && OnlyNode(old(Snap()), Snap(), p)
      ensures RepBorder(Snap(), path, p, b.(tail := Suffix(suffix, v)))
    {
      ghost var m := Snap();
      nodes := nodes[p := nodes[p].(keySuffix := Chars(suffix), suffixLink := v)];
      TailSet(m, Snap(), path, p, b, Suffix(suffix, v));
    }

    /** `BN_SetLink` */
    method SetLink(p: Ptr, index: Ptr, ghost path: seq<nat>, ghost b: Border, ghost sub: Layer)
      requires Ok() && RepBorder(Snap(), path, p, b) && RepLayer(Snap(), path, index, sub)
      modifies this`nodes
      ensures Ok() && OnlyNode(old(Snap()), Snap(), p)
      ensures RepBorder(Snap(), path, p, b.(tail := Link(sub)))
    {
      ghost var m := Snap();
      nodes := nodes[p := nodes[p].(keySuffix := NoChars, suffixLink := index)];
      OnlyNodeChanged(m, Snap(), path, p);
      FrameLayer(m, Snap(), path, index, sub);
      TailSet(m, Snap(), path, p, b, Link(sub));
    }

    /** `BN_SetValue` */
    method SetValue(p: Ptr, key: Key, v: Value, ghost path: seq<nat>, ghost b: Border)
      requires Ok() && RepBorder(Snap(), path, p, b)
      modifies this`nodes
      ensures Ok() && OnlyNode(old(Snap()), Snap(), p)
      ensures RepBorder(Snap(), path, p, Trie.SetValue(b, key, v))
    {
      if |key| > SLICE {
        SetSuffixValue(p, key[SLICE..], v, path, b);
      } else {
        SetPrefixValue(p, |key|, v, path, b);
      }
    }

    /** `BN_ExportSuffixValue`: False where there is no suffix. */
    method ExportSuffixValue(p: Ptr, ghost path: seq<nat>, ghost b: Border) returns (found: bool, key: Key, v: Value)
      requires Ok() && RepBorder(Snap(), path, p, b)
      modifies this`nodes
      ensures Ok() && OnlyNode(old(Snap()), Snap(), p) && (found <==> b.tail.Suffix?)
      ensures if found then Suffix(key, v) == b.tail && RepBorder(Snap(), path, p, b.(tail := NoTail))
        else Snap() == old(Snap())
    {
      ghost var m := Snap();
      TailTells(m, path, nodes[p], b.tail);
      if nodes[p].keySuffix.NoChars? {
        return false, [], NULL;
      }
      found := true;
      key, v := nodes[p].keySuffix.bytes, nodes[p].suffixLink;
      nodes := nodes[p := nodes[p].(keySuffix := NoChars, suffixLink := NULL)];
      TailSet(m, Snap(), path, p, b, NoTail);
    }

    // ---- create_pair, put and the lookup ----

    /** `BN_NewBorderNode` and the `BN_SetValue` that follows it. */
    method NewValueNode(key: Key, v: Value, ghost home: seq<nat>) returns (p: Ptr)
      requires Ok()
      modifies this
      ensures Ok() && Grown(old(Snap()), Snap()) && p !in old(nodes)
      ensures RepBorder(Snap(), home, p, Trie.SetValue(EmptyBorder, key, v))
    {
      ghost var m := Snap();
      p := NewBorderNode(home);
      ghost var m' := Snap();
      SetValue(p, key, v, home, EmptyBorder);
      FreshNode(m, m', Snap(), p);
    }

    /** `Iempty` and the first `Iput`. */
    method NewLayer(s: nat, q: Ptr, ghost path: seq<nat>, ghost b: Border) returns (p: Ptr)
      requires Ok() && RepBorder(Snap(), path + [s], q, b)
      modifies this
      ensures Ok() && Grown(old(Snap()), Snap()) && p !in old(indices)
      ensures RepLayer(Snap(), path, p, Layer(map[s := b]))
    {
      ghost var m := Snap();
      p := NewIndex(path);
      ghost var m' := Snap();
      GrownBorder(m, m', path + [s], q, b);
      IndexPut(p, s, q);
      LayerPut(m', Snap(), path, p, EmptyLayer, s, q, b);
      assert EmptyLayer.nodes[s := b] == map[s := b];
    }

    /** `create_pair` */
    method CreatePair(key1: Key, key2: Key, v1: Value, v2: Value, ghost path: seq<nat>) returns (index: Ptr)
      requires Ok()
      modifies this
      ensures Ok() && Grown(old(Snap()), Snap())
      ensures RepLayer(Snap(), path, index, Trie.CreatePair(key1, key2, v1, v2))
      decreases |key1|
    {
      ghost var m0 := Snap();
      var s1 := GetNextKeySlice(key1);
      var s2 := GetNextKeySlice(key2);
      if s1 == s2 {
        if |key1| <= SLICE || |key2| <= SLICE {
          var bnode := NewValueNode(key1, v1, path + [s1]);
          ghost var m1 := Snap();
          SetValue(bnode, key2, v2, path + [s1], Trie.SetValue(EmptyBorder, key1, v1));
          FreshNode(m0, m1, Snap(), bnode);
          ghost var m2 := Snap();
          index := NewLayer(s1, bnode, path, Trie.SetValue(Trie.SetValue(EmptyBorder, key1, v1), key2, v2));
          GrownTrans(m0, m2, Snap());
        } else {
          index := CreateChain(key1, key2, v1, v2, s1, path);
        }
      } else {
        index := CreateApart(key1, key2, v1, v2, s1, s2, path);
      }
    }

    /** Both keys go on after the slice: a border node with a link to the pair of the rests. */
    method CreateChain(key1: Key, key2: Key, v1: Value, v2: Value, s: nat, ghost path: seq<nat>) returns (index: Ptr)
      requires Ok() && s == Slice(key1) == Slice(key2) && |key1| > SLICE && |key2| > SLICE
      modifies this
      ensures Ok() && Grown(old(Snap()), Snap())
      ensures RepLayer(Snap(), path, index, Trie.CreatePair(key1, key2, v1, v2))
      decreases |key1|, 0
    {
      ghost var m0 := Snap();
      var bnode := NewBorderNode(path + [s]);
      ghost var m1 := Snap();
      var sub := CreatePair(key1[SLICE..], key2[SLICE..], v1, v2, path + [s]);
      ghost var m2 := Snap();
      GrownTrans(m0, m1, m2);
      GrownBorder(m1, m2, path + [s], bnode, EmptyBorder);
      SetLink(bnode, sub, path + [s], EmptyBorder, Trie.CreatePair(key1[SLICE..], key2[SLICE..], v1, v2));
      ghost var m3 := Snap();
      FreshNode(m0, m2, m3, bnode);
      index := NewLayer(s, bnode, path, EmptyBorder.(tail := Link(Trie.CreatePair(key1[SLICE..], key2[SLICE..], v1, v2))));
      GrownTrans(m0, m3, Snap());
    }

    /** Different slices: a border node each. */
    method CreateApart(key1: Key, key2: Key, v1: Value, v2: Value, s1: nat, s2: nat, ghost path: seq<nat>)
      returns (index: Ptr)
      requires Ok() && s1 == Slice(key1) != s2 && s2 == Slice(key2)
      modifies this
      ensures Ok() && Grown(old(Snap()), Snap())
      ensures RepLayer(Snap(), path, index, Trie.CreatePair(key1, key2, v1, v2))
    {
      ghost var m0, b1, b2 := Snap(), Trie.SetValue(EmptyBorder, key1, v1), Trie.SetValue(EmptyBorder, key2, v2);
      var bnode1 := NewValueNode(key1, v1, path + [s1]);
      ghost var m1 := Snap();
      var bnode2 := NewValueNode(key2, v2, path + [s2]);
      ghost var m2 := Snap();
      GrownBorder(m1, m2, path + [s1], bnode1, b1);
      GrownTrans(m0, m1, m2);
      index := NewLayer(s2, bnode2, path, b2);
      ghost var m3 := Snap();
      GrownBorder(m2, m3, path + [s1], bnode1, b1);
      GrownTrans(m0, m2, m3);
      assert index !in m0.indices by { assert index in m0.indices ==> IndexKept(m0, m2, index); }
      AddToNewLayer(index, s1, bnode1, path, Layer(map[s2 := b2]), b1, m0);
      PairApartIs(key1, key2, v1, v2);
    }

    /** An `Iput` into an index made since `m0`. */
    method AddToNewLayer(index: Ptr, s: nat, q: Ptr, ghost path: seq<nat>, ghost layer: Layer, ghost b: Border, ghost m0: Mem)
      requires Ok() && Grown(m0, Snap()) && index !in m0.indices
      requires RepLayer(Snap(), path, index, layer) && RepBorder(Snap(), path + [s], q, b)
      modifies this`indices
      ensures Ok() && Grown(m0, Snap()) && RepLayer(Snap(), path, index, Layer(layer.nodes[s := b]))
    {
      ghost var m := Snap();
      IndexPut(index, s, q);
      LayerPut(m, Snap(), path, index, layer, s, q, b);
      FreshIndex(m0, m, Snap(), index);
    }

    /** `put`: memory that held a trie now holds the trie that module Trie's `Put` makes
        of it, and nothing outside the trie has changed. */
    method Put(key: Key, v: Value, index: Ptr, ghost path: seq<nat>, ghost layer: Layer)
      requires Ok() && RepLayer(Snap(), path, index, layer)
      modifies this
      ensures Ok() && RepLayer(Snap(), path, index, Trie.Put(key, v, layer))
      ensures Changed(old(Snap()), Snap(), path, false)
      decreases |key|, 1
    {
      ghost var m := Snap();
      var s := GetNextKeySlice(key);
      if s in indices[index] {
        var bnode := indices[index][s];
        assert RepBorder(m, path + [s], bnode, layer.nodes[s]);
        PutInNode(key, v, bnode, s, path, layer.nodes[s]);
        LayerChanged(m, Snap(), path, index, layer, s, PutBorder(key, v, layer.nodes[s]));
        ChangedAbove(m, Snap(), path, s, true);
      } else {
        var bnode := NewValueNode(key, v, path + [s]);
        ghost var m' := Snap();
        GrownSame(m, m', path);
        FrameLayer(m, m', path, index, layer);
        IndexPut(index, s, bnode);
        LayerPut(m', Snap(), path, index, layer, s, bnode, Trie.SetValue(EmptyBorder, key, v));
        GrownThen(m, m', Snap(), path);
      }
    }

    /** The part of `put` at an existing border node. */
    method PutInNode(key: Key, v: Value, bnode: Ptr, s: nat, ghost path: seq<nat>, ghost b: Border)
      requires Ok() && s == Slice(key) && RepBorder(Snap(), path + [s], bnode, b)
      modifies this
      ensures Ok() && RepBorder(Snap(), path + [s], bnode, PutBorder(key, v, b))
      ensures Changed(old(Snap()), Snap(), path + [s], true)
      decreases |key|, 0
    {
      ghost var m, home := Snap(), path + [s];
      if |key| <= SLICE {
        SetPrefixValue(bnode, |key|, v, home, b);
        OnlyNodeChanged(m, Snap(), home, bnode);
        return;
      }
      var rest := key[SLICE..];
      TailTells(m, home, nodes[bnode], b.tail);
      if nodes[bnode].keySuffix.Chars? {
        var equal := StrEqual(rest, nodes[bnode].keySuffix.bytes);
        if equal {
          SetSuffixValue(bnode, rest, v, home, b);
          OnlyNodeChanged(m, Snap(), home, bnode);
        } else {
          PushDown(rest, v, bnode, home, b);
        }
      } else if nodes[bnode].suffixLink != NULL {
        Put(rest, v, nodes[bnode].suffixLink, home, b.tail.layer);
        assert NodeKept(m, Snap(), bnode);
      } else {
        SetSuffixValue(bnode, rest, v, home, b);
        OnlyNodeChanged(m, Snap(), home, bnode);
      }
    }

    /** The suffix there goes into a new layer together with the key that was put. */
    method PushDown(rest: Key, v: Value, bnode: Ptr, ghost home: seq<nat>, ghost b: Border)
      requires Ok() && RepBorder(Snap(), home, bnode, b) && b.tail.Suffix?
      modifies this
      ensures Ok() && Changed(old(Snap()), Snap(), home, true)
      ensures RepBorder(Snap(), home, bnode, b.(tail := Link(Trie.CreatePair(rest, b.tail.rest, v, b.tail.value))))
    {
      ghost var m := Snap();
      var _, k2, v2 := ExportSuffixValue(bnode, home, b);
      ghost var m1 := Snap();
      var sub := CreatePair(rest, k2, v, v2, home);
      ghost var m2 := Snap();
      GrownBorder(m1, m2, home, bnode, b.(tail := NoTail));
      SetLink(bnode, sub, home, b.(tail := NoTail), Trie.CreatePair(rest, k2, v, v2));
      AroundNode(m, m1, m2, Snap(), home, bnode);
    }

    /** `getValueOfPartialKey` */
    method Lookup(key: Key, index: Ptr, ghost path: seq<nat>, ghost layer: Layer) returns (v: Value)
      requires Ok() && RepLayer(Snap(), path, index, layer)
      ensures v == Trie.Lookup(key, layer)
      decreases |key|
    {
      var s := GetNextKeySlice(key);
      if s !in indices[index] { return NULL; }
      var n := nodes[indices[index][s]];
      assert RepBorder(Snap(), path + [s], indices[index][s], layer.nodes[s]);
      if |key| <= SLICE {
        assert |key| in PrefixOf(n) <==> |key| in n.prefixFlags;
        return if |key| in n.prefixFlags then n.prefixLinks[|key|] else NULL;
      }
      TailTells(Snap(), path + [s], n, layer.nodes[s].tail);
      if n.keySuffix.Chars? {
        var equal := StrEqual(n.keySuffix.bytes, key[SLICE..]);
        return if equal then n.suffixLink else NULL;
      }
      if n.suffixLink == NULL { return NULL; }
      v := Lookup(key[SLICE..], n.suffixLink, path + [s], layer.nodes[s].tail.layer);
    }
  }

  /** How the fields of a border node tell what its tail is. */
  lemma TailTells(m: Mem, path: seq<nat>, n: BNode, tail: Tail)
    requires RepTail(m, path, n, tail)
    ensures tail.Suffix? <==> n.keySuffix.Chars?
    ensures tail.Link? <==> n.keySuffix.NoChars? && n.suffixLink != NULL
  {
    match tail
    case NoTail =>
    case Suffix(_, _) =>
    case Link(sub) => assert RepLayer(m, path, n.suffixLink, sub);
  }

  /** What `put` does to the border node of the key's slice. */
  function PutBorder(key: Key, v: Value, b: Border): Border {
    if |key| <= SLICE then b.(prefix := b.prefix[|key| := v]) else b.(tail := PutTail(key[SLICE..], v, b.tail))
  }

  lemma PairApartIs(key1: Key, key2: Key, v1: Value, v2: Value)
    requires Slice(key1) != Slice(key2)
    ensures Trie.CreatePair(key1, key2, v1, v2) == Layer(Layer(
      map[Slice(key2) := Trie.SetValue(EmptyBorder, key2, v2)]).nodes[Slice(key1) := Trie.SetValue(EmptyBorder, key1, v1)])
  {
  }

  lemma FreshIndex(m: Mem, m': Mem, m'': Mem, p: Ptr)
    requires MemOk(m') && Grown(m, m') && p !in m.indices && m'' == m'.(indices := m''.indices)
    requires forall q | q in m'.indices && q != p :: q in m''.indices && m''.indices[q] == m'.indices[q]
    ensures Grown(m, m'')
  {
    forall q | q in m.nodes && q in m.nodeHome ensures NodeKept(m, m'', q) { assert NodeKept(m, m', q); }
    forall q | q in m.indices && q in m.indexHome ensures IndexKept(m, m'', q) { assert IndexKept(m, m', q); }
  }

  lemma GrownThen(m: Mem, m': Mem, m'': Mem, path: seq<nat>)
    requires Grown(m, m') && Changed(m', m'', path, false)
    ensures Changed(m, m'', path, false)
  {
    forall p | p in m.nodes && p in m.nodeHome && !(Under(path, m.nodeHome[p]) && m.nodeHome[p] != path)
      ensures NodeKept(m, m'', p)
    {
      assert NodeKept(m, m', p) && NodeKept(m', m'', p);
    }
    forall p | p in m.indices && p in m.indexHome && !Under(path, m.indexHome[p]) ensures IndexKept(m, m'', p) {
      assert IndexKept(m, m', p) && IndexKept(m', m'', p);
    }
  }

  /** A node changed, memory grown, and the node changed again. */
  lemma AroundNode(m: Mem, m1: Mem, m2: Mem, m3: Mem, home: seq<nat>, p: Ptr)
    requires MemOk(m) && MemOk(m2) && OnlyNode(m, m1, p) && Grown(m1, m2) && OnlyNode(m2, m3, p) && m.nodeHome[p] == home
    ensures Changed(m, m3, home, true)
  {
    forall q | q in m.nodes && q in m.nodeHome && !Under(home, m.nodeHome[q]) ensures NodeKept(m, m3, q) {
      assert NodeKept(m1, m2, q);
    }
    forall q | q in m.indices && q in m.indexHome && !Under(home, m.indexHome[q]) ensures IndexKept(m, m3, q) {
      assert IndexKept(m1, m2, q);
    }
  }
}
