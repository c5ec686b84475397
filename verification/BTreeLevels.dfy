/** The search path level by level: where a move turns, what a put does at each level,
    and what replacing one node does to the whole tree. */
module BTreeLevels {
  import opened BTree
  import opened BTreeMoves
  import opened BTreeInsert

  lemma {:induction false} NodeAtNext(n: Node, path: seq<nat>, level: nat)
    requires IsPath(n, path) && level + 1 < |path|
    ensures var m := NodeAt(n, path, level);
      m.Inner? && path[level] < |m.kids| && NodeAt(n, path, level + 1) == m.kids[path[level]]
    decreases level
  {
    if level > 0 { NodeAtNext(n.kids[path[0]], path[1..], level - 1); }
  }

  /** A node on a path depends on the indices above it only. */
  lemma {:induction false} NodeAtTake(n: Node, path: seq<nat>, m: nat, level: nat)
    requires level <= m <= |path|
    ensures NodeAt(n, path[..m], level) == NodeAt(n, path, level)
    decreases level
  {
    if level > 0 && n.Inner? && path[0] < |n.kids| {
      assert path[..m][1..] == path[1..][..m - 1];
      NodeAtTake(n.kids[path[0]], path[1..], m - 1, level - 1);
    }
  }

  lemma Cons(i: nat, p: seq<nat>, level: nat, q: seq<nat>)
    requires 0 < level <= |p| && p[0] == i
    ensures [i] + (p[1..][..level - 1] + q) == p[..level] + q
  {
  }

  /** A move made inside the node at some level is the move of the whole cursor. */
  lemma {:induction false} NextLifts(n: Node, path: seq<nat>, level: nat)
    requires IsPath(n, path) && level < |path|
    ensures match Next(NodeAt(n, path, level), path[level..])
      case To(p) => Next(n, path) == To(path[..level] + p)
      case Stuck => true
    decreases level
  {
    if level == 0 {
      assert path[0..] == path;
      match Next(n, path) case To(p) => assert path[..0] + p == p; case Stuck =>
    } else {
      NextLifts(n.kids[path[0]], path[1..], level - 1);
      assert path[1..][level - 1..] == path[level..];
      match Next(NodeAt(n, path, level), path[level..])
      case To(p) => Cons(path[0], path, level, p);
      case Stuck =>
    }
  }

  lemma {:induction false} PrevLifts(n: Node, path: seq<nat>, level: nat)
    requires IsPath(n, path) && level < |path|
    ensures match Prev(NodeAt(n, path, level), path[level..])
      case To(p) => Prev(n, path) == To(path[..level] + p)
      case Stuck => true
    decreases level
  {
    if level == 0 {
      assert path[0..] == path;
      match Prev(n, path) case To(p) => assert path[..0] + p == p; case Stuck =>
    } else {
      PrevLifts(n.kids[path[0]], path[1..], level - 1);
      assert path[1..][level - 1..] == path[level..];
      match Prev(NodeAt(n, path, level), path[level..])
      case To(p) => Cons(path[0], path, level, p);
      case Stuck =>
    }
  }

  // ---- a put, level by level ----

  /** What the node at `level` on the search path of `k` becomes. */
  ghost function PutAt(n: Node, h: nat, lo: End, hi: End, root: bool, level: nat, k: Key, v: Value): Grown
    requires WF(n, h, lo, hi, root) && level <= h
    decreases level
  {
    if level == 0 then Put(n, h, lo, hi, root, k, v)
    else
      var i := KidIdx(n.keys, k);
      PutAt(n.kids[i], h - 1, KidLo(n.keys, i, lo), KidHi(n.keys, i, hi), false, level - 1, k, v)
  }

  lemma KeyPathStep(n: Node, h: nat, lo: End, hi: End, root: bool, k: Key)
    requires WF(n, h, lo, hi, root) && n.Inner?
    ensures var i, path := KidIdx(n.keys, k), KeyPath(n, k);
      i < |n.kids| && path != [] && path[0] == i && path[1..] == KeyPath(n.kids[i], k)
      && WF(n.kids[i], h - 1, KidLo(n.keys, i, lo), KidHi(n.keys, i, hi), false)
  {
  }

  /** The node `level` steps down the search for `k`. */
  function SearchNode(n: Node, k: Key, level: nat): Node
    decreases level
  {
    if level == 0 || n.Leaf? || KidIdx(n.keys, k) >= |n.kids| then n
    else SearchNode(n.kids[KidIdx(n.keys, k)], k, level - 1)
  }

  lemma {:induction false} SearchNodeIs(n: Node, h: nat, lo: End, hi: End, root: bool, level: nat, k: Key)
    requires WF(n, h, lo, hi, root) && level <= h && |KeyPath(n, k)| == h + 1
    ensures NodeAt(n, KeyPath(n, k), level) == SearchNode(n, k, level)
    ensures level == h ==> KeyPath(n, k)[level] == RecIdx(SearchNode(n, k, level).keys, k)
    ensures level < h ==> KeyPath(n, k)[level] == KidIdx(SearchNode(n, k, level).keys, k)
    decreases level
  {
    if level > 0 {
      KeyPathStep(n, h, lo, hi, root, k);
      var i := KidIdx(n.keys, k);
      SearchNodeIs(n.kids[i], h - 1, KidLo(n.keys, i, lo), KidHi(n.keys, i, hi), false, level - 1, k);
    }
  }

  /** At the leaf a put is the leaf's own. */
  lemma {:induction false} PutAtLeaf(n: Node, h: nat, lo: End, hi: End, root: bool, k: Key, v: Value)
    requires WF(n, h, lo, hi, root)
    ensures SearchNode(n, k, h).Leaf? && |SearchNode(n, k, h).recs| == |SearchNode(n, k, h).keys| <= FANOUT
    ensures PutAt(n, h, lo, hi, root, h, k, v) == PutInLeaf(SearchNode(n, k, h), k, v)
    decreases h
  {
    if h > 0 {
      var i := KidIdx(n.keys, k);
      PutAtLeaf(n.kids[i], h - 1, KidLo(n.keys, i, lo), KidHi(n.keys, i, hi), false, k, v);
    }
  }

  /** Above, it attaches what the kid became. */
  lemma {:induction false} PutAtInner(n: Node, h: nat, lo: End, hi: End, root: bool, level: nat, k: Key, v: Value)
    requires WF(n, h, lo, hi, root) && level < h
    ensures SearchNode(n, k, level).Inner?
    ensures |SearchNode(n, k, level).kids| == |SearchNode(n, k, level).keys| + 1 <= FANOUT + 1
    ensures PutAt(n, h, lo, hi, root, level, k, v) == Attach(SearchNode(n, k, level),
      KidIdx(SearchNode(n, k, level).keys, k), PutAt(n, h, lo, hi, root, level + 1, k, v))
    decreases level
  {
    if level > 0 {
      var i := KidIdx(n.keys, k);
      PutAtInner(n.kids[i], h - 1, KidLo(n.keys, i, lo), KidHi(n.keys, i, hi), false, level - 1, k, v);
    }
  }

  lemma PutAtNode(n: Node, h: nat, lo: End, hi: End, root: bool, level: nat, k: Key, v: Value)
    requires WF(n, h, lo, hi, root) && level <= h
    ensures |KeyPath(n, k)| == h + 1 && IsPath(n, KeyPath(n, k))
    ensures level == h ==>
      var m, path := NodeAt(n, KeyPath(n, k), level), KeyPath(n, k);
      && m.Leaf? && |m.recs| == |m.keys| <= FANOUT && path[h] == RecIdx(m.keys, k)
      && PutAt(n, h, lo, hi, root, level, k, v) == PutInLeaf(m, k, v)
    ensures level < h ==>
      var m, path := NodeAt(n, KeyPath(n, k), level), KeyPath(n, k);
      && m.Inner? && |m.kids| == |m.keys| + 1 && path[level] == KidIdx(m.keys, k) <= |m.keys| <= FANOUT
      && PutAt(n, h, lo, hi, root, level, k, v) == Attach(m, path[level], PutAt(n, h, lo, hi, root, level + 1, k, v))
  {
    KeyPathIsPath(n, h, lo, hi, root, k);
    SearchNodeIs(n, h, lo, hi, root, level, k);
    if level == h {
      PutAtLeaf(n, h, lo, hi, root, k, v);
    } else {
      PutAtInner(n, h, lo, hi, root, level, k, v);
    }
  }

  lemma SepWithin(n: Node, h: nat, lo: End, hi: End, root: bool, k: Key, v: Value)
    requires WF(n, h, lo, hi, root) && Above(lo, k) && Below(k, hi)
    ensures var g := Put(n, h, lo, hi, root, k, v); g.Two? ==> Below(g.sep, hi) && Before(lo, End.Key(g.sep))
  {
    PutOk(n, h, lo, hi, root, k, v);
  }

  lemma SepHere(n: Node, h: nat, lo: End, hi: End, root: bool, k: Key, v: Value)
    requires WF(n, h, lo, hi, root) && n.Inner? && Above(lo, k) && Below(k, hi)
    ensures PutAt(n, h, lo, hi, root, 1, k, v).Two? ==>
      RecIdx(n.keys, PutAt(n, h, lo, hi, root, 1, k, v).sep) == KidIdx(n.keys, k)
  {
    var i := KidIdx(n.keys, k);
    var lo', hi' := KidLo(n.keys, i, lo), KidHi(n.keys, i, hi);
    KeyPathStep(n, h, lo, hi, root, k);
    SidesOfKey(n, h, lo, hi, root, k);
    SepWithin(n.kids[i], h - 1, lo', hi', false, k, v);
    var g := PutAt(n, h, lo, hi, root, 1, k, v);
    if g.Two? { SepIdx(n.keys, lo, hi, i, g.sep); }
  }

  /** A separator that comes up from a split goes where the search went down. */
  lemma {:induction false} SepPlace(n: Node, h: nat, lo: End, hi: End, root: bool, level: nat, k: Key, v: Value)
    requires WF(n, h, lo, hi, root) && level < h && Above(lo, k) && Below(k, hi)
    requires PutAt(n, h, lo, hi, root, level + 1, k, v).Two?
    ensures RecIdx(SearchNode(n, k, level).keys, PutAt(n, h, lo, hi, root, level + 1, k, v).sep)
      == KidIdx(SearchNode(n, k, level).keys, k)
    decreases level
  {
    if level == 0 {
      SepHere(n, h, lo, hi, root, k, v);
    } else {
      var i := KidIdx(n.keys, k);
      KeyInKid(n.keys, lo, hi, k);
      SepPlace(n.kids[i], h - 1, KidLo(n.keys, i, lo), KidHi(n.keys, i, hi), false, level - 1, k, v);
    }
  }

  lemma SepIdx(keys: seq<Key>, lo: End, hi: End, i: nat, s: Key)
    requires Sorted(keys) && i <= |keys|
    requires Below(s, KidHi(keys, i, hi)) && Before(KidLo(keys, i, lo), End.Key(s))
    ensures RecIdx(keys, s) == i
  {
    RecIdxIs(keys, s, i);
  }

  // ---- one node replaced ----

  /** The tree with the node at `level` on a path replaced by `m`. */
  function Plug(n: Node, path: seq<nat>, level: nat, m: Node): Node
    decreases level
  {
    if level == 0 || n.Leaf? || path == [] || path[0] >= |n.kids| then m
    else n.(kids := n.kids[path[0] := Plug(n.kids[path[0]], path[1..], level - 1, m)])
  }

  /** The same along the search for `k`. */
  function PlugKey(n: Node, k: Key, level: nat, m: Node): Node
    decreases level
  {
    if level == 0 || n.Leaf? || KidIdx(n.keys, k) >= |n.kids| then m
    else n.(kids := n.kids[KidIdx(n.keys, k) := PlugKey(n.kids[KidIdx(n.keys, k)], k, level - 1, m)])
  }

  lemma {:induction false} PlugKeyIs(n: Node, level: nat, k: Key, m: Node)
    requires level < |KeyPath(n, k)|
    ensures Plug(n, KeyPath(n, k), level, m) == PlugKey(n, k, level, m)
    decreases level
  {
    if level > 0 {
      var i := KidIdx(n.keys, k);
      assert KeyPath(n, k)[1..] == KeyPath(n.kids[i], k);
      PlugKeyIs(n.kids[i], level - 1, k, m);
    }
  }

  /** If the node at some level does not split, the put changes nothing else. */
  lemma {:induction false} PutIsPlug(n: Node, h: nat, lo: End, hi: End, root: bool, level: nat, k: Key, v: Value)
    requires WF(n, h, lo, hi, root) && level <= h
    requires PutAt(n, h, lo, hi, root, level, k, v).One?
    ensures Put(n, h, lo, hi, root, k, v) == One(PlugKey(n, k, level, PutAt(n, h, lo, hi, root, level, k, v).node))
    decreases level
  {
    if level > 0 {
      var i := KidIdx(n.keys, k);
      PutIsPlug(n.kids[i], h - 1, KidLo(n.keys, i, lo), KidHi(n.keys, i, hi), false, level - 1, k, v);
    }
  }

  lemma {:induction false} PlugAbove(n: Node, path: seq<nat>, level: nat, l: Node, m: Node)
    requires IsPath(n, path) && level + 1 < |path|
    ensures var p := NodeAt(n, path, level);
      && p.Inner? && path[level] < |p.kids|
      && NodeAt(Plug(n, path, level + 1, l), path, level) == p.(kids := p.kids[path[level] := l])
    ensures Plug(Plug(n, path, level + 1, l), path, level, m) == Plug(n, path, level, m)
    decreases level
  {
    if level > 0 {
      var i := path[0];
      var c := Plug(n.kids[i], path[1..], level, l);
      PlugAbove(n.kids[i], path[1..], level - 1, l, m);
      assert n.kids[i := c][i := Plug(c, path[1..], level - 1, m)] == n.kids[i := Plug(c, path[1..], level - 1, m)];
    }
  }

  /** Replacing a node does not change the search above it. */
  lemma PlugSearch(n: Node, h: nat, lo: End, hi: End, root: bool, level: nat, m: Node, k: Key)
    requires WF(n, h, lo, hi, root) && level <= h
    ensures |KeyPath(n, k)| == h + 1
    ensures KeyPath(Plug(n, KeyPath(n, k), level, m), k) == KeyPath(n, k)[..level] + KeyPath(m, k)
    ensures NodeAt(Plug(n, KeyPath(n, k), level, m), KeyPath(n, k), level) == m
  {
    KeyPathIsPath(n, h, lo, hi, root, k);
    PlugKeyIs(n, level, k, m);
    PlugPath(n, level, m, k);
    PlugAt(n, KeyPath(n, k), level, m);
  }

  lemma {:induction false} PlugAt(n: Node, path: seq<nat>, level: nat, m: Node)
    requires IsPath(n, path) && level < |path|
    ensures NodeAt(Plug(n, path, level, m), path, level) == m
    decreases level
  {
    if level > 0 { PlugAt(n.kids[path[0]], path[1..], level - 1, m); }
  }

  lemma {:induction false} PlugPath(n: Node, level: nat, m: Node, k: Key)
    requires level < |KeyPath(n, k)|
    ensures KeyPath(PlugKey(n, k, level, m), k) == KeyPath(n, k)[..level] + KeyPath(m, k)
    decreases level
  {
    if level == 0 {
      assert KeyPath(n, k)[..0] == [];
    } else {
      var i := KidIdx(n.keys, k);
      assert KeyPath(n, k)[1..] == KeyPath(n.kids[i], k);
      PlugPath(n.kids[i], level - 1, m, k);
      KeyPathOver(n, i, PlugKey(n.kids[i], k, level - 1, m), k);
      Cons(i, KeyPath(n, k), level, KeyPath(m, k));
    }
  }

  lemma KeyPathOver(n: Node, i: nat, c: Node, k: Key)
    requires n.Inner? && i < |n.kids| && i == KidIdx(n.keys, k)
    ensures KeyPath(n.(kids := n.kids[i := c]), k) == [i] + KeyPath(c, k)
  {
  }

  // ---- whether the key is there ----

  predicate HasKey(leaf: Node, k: Key) {
    RecIdx(leaf.keys, k) < |leaf.keys| && leaf.keys[RecIdx(leaf.keys, k)] == k
  }

  /** The search ends on the record of the key exactly when the tree has one. */
  lemma {:induction false} StoredInLeaf(n: Node, h: nat, lo: End, hi: End, root: bool, k: Key)
    requires WF(n, h, lo, hi, root) && Above(lo, k) && Below(k, hi)
    ensures HasKey(SearchNode(n, k, h), k) <==> HasRec(Recs(n), k)
    decreases h
  {
    if n.Leaf? {
      PosIs(Recs(n), k, RecIdx(n.keys, k));
    } else {
      var i := KidIdx(n.keys, k);
      SidesOfKey(n, h, lo, hi, root, k);
      StoredInLeaf(n.kids[i], h - 1, KidLo(n.keys, i, lo), KidHi(n.keys, i, hi), false, k);
      RecsSplit(n.kids, i);
      HasRecInMiddle(RecsOf(n.kids[..i]), Recs(n.kids[i]), RecsOf(n.kids[i + 1..]), k);
    }
  }

  /** The number of records after a put. */
  lemma CountAfterPut(root: Node, h: nat, k: Key, v: Value)
    requires Tree(root, h)
    ensures |Upsert(Recs(root), k, v)| == |Recs(root)| + if HasKey(SearchNode(root, k, h), k) then 0 else 1
  {
    StoredInLeaf(root, h, Open, Open, true, k);
    UpsertHere(Recs(root), k, v);
  }

  // ---- one round of the climb ----

  lemma {:induction false} PlugTake(n: Node, path: seq<nat>, m: nat, level: nat, x: Node)
    requires level <= m <= |path|
    ensures Plug(n, path[..m], level, x) == Plug(n, path, level, x)
    decreases level
  {
    if level > 0 && n.Inner? && path[0] < |n.kids| {
      assert path[..m][1..] == path[1..][..m - 1];
      PlugTake(n.kids[path[0]], path[1..], m - 1, level - 1, x);
    }
  }

  /** Above a split: the node that the upper half now goes into, at the place where the
      search went down. */
  lemma AboveSplit(root: Node, h: nat, level: nat, k: Key, v: Value)
    requires Tree(root, h) && level < h && PutAt(root, h, Open, Open, true, level + 1, k, v).Two?
    ensures var path, g := KeyPath(root, k), PutAt(root, h, Open, Open, true, level + 1, k, v);
      var a := NodeAt(Plug(root, path, level + 1, g.left), path, level);
      && |path| == h + 1 && a.Inner? && |a.kids| == |a.keys| + 1
      && RecIdx(a.keys, g.sep) == path[level] <= |a.keys| <= FANOUT
      && PutAt(root, h, Open, Open, true, level, k, v) == AddKid(a, path[level], g.sep, g.right)
  {
    var path, g := KeyPath(root, k), PutAt(root, h, Open, Open, true, level + 1, k, v);
    PutAtNode(root, h, Open, Open, true, level, k, v);
    PlugAbove(root, path, level, g.left, g.left);
    SearchNodeIs(root, h, Open, Open, true, level, k);
    SepPlace(root, h, Open, Open, true, level, k, v);
  }

  lemma AbovePlug(root: Node, h: nat, level: nat, k: Key, l: Node, m: Node)
    requires Tree(root, h) && level < h
    ensures var path := KeyPath(root, k);
      Plug(Plug(root, path, level + 1, l), path, level, m) == Plug(root, path, level, m)
  {
    KeyPathIsPath(root, h, Open, Open, true, k);
    PlugAbove(root, KeyPath(root, k), level, l, m);
  }

  /** Where the climb ends without a split: the tree is done, and the search for the key
      goes on from there. */
  lemma NoSplit(root: Node, h: nat, level: nat, k: Key, v: Value, m: Node)
    requires Tree(root, h) && level <= h && PutAt(root, h, Open, Open, true, level, k, v) == One(m)
    ensures |KeyPath(root, k)| == h + 1
    ensures Put(root, h, Open, Open, true, k, v) == One(Plug(root, KeyPath(root, k), level, m))
    ensures KeyPath(Plug(root, KeyPath(root, k), level, m), k) == KeyPath(root, k)[..level] + KeyPath(m, k)
    ensures Shape(m, h - level)
  {
    PlugSearch(root, h, Open, Open, true, level, m, k);
    PutIsPlug(root, h, Open, Open, true, level, k, v);
    PlugKeyIs(root, level, k, m);
    PluggedTree(root, h, level, k, v, m);
    PluggedShape(root, h, level, k, m);
  }

  lemma PluggedTree(root: Node, h: nat, level: nat, k: Key, v: Value, m: Node)
    requires Tree(root, h) && Put(root, h, Open, Open, true, k, v) == One(Plug(root, KeyPath(root, k), level, m))
    ensures Tree(Plug(root, KeyPath(root, k), level, m), h)
  {
    PutRoot(root, h, k, v);
  }

  lemma PluggedShape(root: Node, h: nat, level: nat, k: Key, m: Node)
    requires Tree(root, h) && level <= h && Tree(Plug(root, KeyPath(root, k), level, m), h)
    ensures Shape(m, h - level)
  {
    var path, root' := KeyPath(root, k), Plug(root, KeyPath(root, k), level, m);
    PlugSearch(root, h, Open, Open, true, level, m, k);
    ShapeOnPath(root', h, k, level);
    NodeAtSame(root', path, KeyPath(root', k), level);
  }

  lemma ShapeOnPath(root: Node, h: nat, k: Key, level: nat)
    requires Tree(root, h) && level <= h
    ensures |KeyPath(root, k)| == h + 1 && Shape(NodeAt(root, KeyPath(root, k), level), h - level)
  {
    var path := KeyPath(root, k);
    KeyPathIsPath(root, h, Open, Open, true, k);
    NodeAtWF(root, h, Open, Open, true, path, level);
    WFShape(NodeAt(root, path, level), h - level, LoAt(root, path, level, Open), HiAt(root, path, level, Open), level == 0);
  }

  lemma {:induction false} NodeAtSame(n: Node, p: seq<nat>, q: seq<nat>, level: nat)
    requires level <= |p| == |q| && p[..level] == q[..level]
    ensures NodeAt(n, p, level) == NodeAt(n, q, level)
  {
    NodeAtTake(n, p, level, level);
    NodeAtTake(n, q, level, level);
  }

  /** In the leaf the record's place does not change. */
  lemma SameIdx(leaf: Node, k: Key, v: Value)
    requires leaf.Leaf? && |leaf.recs| == |leaf.keys| <= FANOUT && PutInLeaf(leaf, k, v).One?
    ensures PutInLeaf(leaf, k, v).node.Leaf? && RecIdx(PutInLeaf(leaf, k, v).node.keys, k) == RecIdx(leaf.keys, k)
  {
    var i := RecIdx(leaf.keys, k);
    var keys' := PutInLeaf(leaf, k, v).node.keys;
    assert forall j :: 0 <= j < i ==> keys'[j] < k;
    assert keys'[i] == k;
  }
}
