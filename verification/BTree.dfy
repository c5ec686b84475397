/** The nodes of the B+-tree, what makes them a B+-tree, and the search for a key. */
module BTree {

  type Key = nat
  type Value = nat
  type Rec = (Key, Value)

  const FANOUT: nat := 15
  const MIDDLE: nat := (FANOUT + 1) / 2
  const MAX_TREE_DEPTH: nat := 20

  /** `kids[0]` is `ptr0`, and `kids[i + 1]` is the child of entry i. */
  datatype Node =
    | Leaf(first: bool, last: bool, keys: seq<Key>, recs: seq<Value>)
    | Inner(first: bool, last: bool, keys: seq<Key>, kids: seq<Node>)

  // ---- indices in a node ----

  /** The number of leading keys that are at most `key`: one more than the index that
      `findChildIndex` returns, and so the position in `kids`. */
  function KidIdx(keys: seq<Key>, key: Key): (r: nat)
    ensures r <= |keys|
    ensures forall j :: 0 <= j < r ==> keys[j] <= key
    ensures r < |keys| ==> key < keys[r]
  {
    if keys == [] || key < keys[0] then 0 else 1 + KidIdx(keys[1..], key)
  }

  /** The number of leading keys smaller than `key`, as `findRecordIndex` returns it. */
  function RecIdx(keys: seq<Key>, key: Key): (r: nat)
    ensures r <= |keys|
    ensures forall j :: 0 <= j < r ==> keys[j] < key
    ensures r < |keys| ==> key <= keys[r]
  {
    if keys == [] || key <= keys[0] then 0 else 1 + RecIdx(keys[1..], key)
  }

  ghost predicate Sorted(keys: seq<Key>) {
    forall i, j :: 0 <= i < j < |keys| ==> keys[i] < keys[j]
  }

  lemma KidIdxIs(keys: seq<Key>, key: Key, i: nat)
    requires Sorted(keys) && i <= |keys|
    requires (i > 0 ==> keys[i - 1] <= key) && (i < |keys| ==> key < keys[i])
    ensures KidIdx(keys, key) == i
  {
  }

  lemma RecIdxIs(keys: seq<Key>, key: Key, i: nat)
    requires Sorted(keys) && i <= |keys|
    requires (i > 0 ==> keys[i - 1] < key) && (i < |keys| ==> key <= keys[i])
    ensures RecIdx(keys, key) == i
  {
  }

  // ---- well-formed trees ----

  /** An end of a key interval. */
  datatype End = Open | Key(key: Key)

  predicate Above(lo: End, k: Key) { lo.Open? || lo.key <= k }
  predicate Below(k: Key, hi: End) { hi.Open? || k < hi.key }

  predicate Before(lo: End, hi: End) { lo.Open? || hi.Open? || lo.key < hi.key }

  function KidLo(keys: seq<Key>, i: nat, lo: End): End
    requires i <= |keys|
  {
    if i == 0 then lo else End.Key(keys[i - 1])
  }

  function KidHi(keys: seq<Key>, i: nat, hi: End): End
    requires i <= |keys|
  {
    if i == |keys| then hi else End.Key(keys[i])
  }

  /** The keys of a node are sorted and lie in the node's interval; the keys of an
      interior node separate its children, so they also differ from the lower end. */
  ghost predicate KeysOk(n: Node, lo: End, hi: End) {
    && Sorted(n.keys)
    && forall i :: 0 <= i < |n.keys| ==>
         Above(lo, n.keys[i]) && Below(n.keys[i], hi) && (n.Inner? ==> Before(lo, End.Key(n.keys[i])))
  }

  /** Between 8 and 15 records in a leaf, between 7 and 15 keys in an interior node;
      the root may have fewer. */
  predicate SizeOk(n: Node, root: bool) {
    && |n.keys| <= FANOUT
    && match n
       case Leaf(_, _, keys, recs) => |recs| == |keys| && (root || MIDDLE <= |keys|)
       case Inner(_, _, keys, kids) =>
         |kids| == |keys| + 1 && 1 <= |keys| && (root || FANOUT - MIDDLE <= |keys|)
  }

  /** A B+-tree of height `h` for the keys from `lo` up to but excluding `hi`: uniform
      depth, key order, separator bounds, occupancy, and First and Last exactly on the
      nodes at the two ends. */
  ghost predicate WF(n: Node, h: nat, lo: End, hi: End, root: bool)
    decreases h
  {
    && KeysOk(n, lo, hi) && SizeOk(n, root)
    && n.first == lo.Open? && n.last == hi.Open?
    && match n
       case Leaf(_, _, _, _) => h == 0
       case Inner(_, _, keys, kids) =>
         h > 0 && forall i :: 0 <= i < |kids| ==> WF(kids[i], h - 1, KidLo(keys, i, lo), KidHi(keys, i, hi), false)
  }

  // ---- the records, in key order ----

  function Recs(n: Node): seq<Rec>
    decreases n, 1
  {
    match n
    case Leaf(_, _, keys, recs) =>
      seq(if |keys| <= |recs| then |keys| else |recs|, i requires 0 <= i < |keys| && i < |recs| => (keys[i], recs[i]))
    case Inner(_, _, _, kids) => RecsOf(kids)
  }

  function RecsOf(ns: seq<Node>): seq<Rec>
    decreases ns, 0
  {
    if ns == [] then [] else Recs(ns[0]) + RecsOf(ns[1..])
  }

  lemma AppendTail<T>(a: seq<T>, b: seq<T>)
    ensures if a == [] then a + b == b else (a + b)[0] == a[0] && (a + b)[1..] == a[1..] + b
  {
  }

  lemma {:induction false} RecsOfAppend(a: seq<Node>, b: seq<Node>)
    ensures RecsOf(a + b) == RecsOf(a) + RecsOf(b)
  {
    AppendTail(a, b);
    if a != [] {
      RecsOfAppend(a[1..], b);
      JoinThree(Recs(a[0]), RecsOf(a[1..]), RecsOf(b));
    }
  }

  lemma TakeDrop<T>(s: seq<T>, i: nat)
    requires i <= |s|
    ensures s[..i] + s[i..] == s
    ensures i < |s| ==> s[i..][1..] == s[i + 1..] && s[..i + 1] == s[..i] + [s[i]]
  {
  }

  lemma RecsOfOne(n: Node)
    ensures RecsOf([n]) == Recs(n)
  {
    assert [n][1..] == [];
    assert Recs(n) + [] == Recs(n);
  }

  lemma RecsFrom(kids: seq<Node>, i: nat)
    requires i < |kids|
    ensures RecsOf(kids[i..]) == Recs(kids[i]) + RecsOf(kids[i + 1..])
  {
    TakeDrop(kids, i);
  }

  lemma RecsTo(kids: seq<Node>, i: nat)
    requires i < |kids|
    ensures RecsOf(kids[..i + 1]) == RecsOf(kids[..i]) + Recs(kids[i])
  {
    TakeDrop(kids, i);
    RecsOfAppend(kids[..i], [kids[i]]);
    RecsOfOne(kids[i]);
  }

  lemma JoinThree<T>(a: seq<T>, b: seq<T>, c: seq<T>)
    ensures a + (b + c) == a + b + c
  {
  }

  lemma RecsBefore(kids: seq<Node>, i: nat)
    requires i <= |kids|
    ensures RecsOf(kids) == RecsOf(kids[..i]) + RecsOf(kids[i..])
  {
    TakeDrop(kids, i);
    RecsOfAppend(kids[..i], kids[i..]);
  }

  /** The records before, in and after kid `i`. */
  lemma RecsSplit(kids: seq<Node>, i: nat)
    requires i < |kids|
    ensures RecsOf(kids) == RecsOf(kids[..i]) + Recs(kids[i]) + RecsOf(kids[i + 1..])
    ensures RecsOf(kids[i..]) == Recs(kids[i]) + RecsOf(kids[i + 1..])
    ensures RecsOf(kids[..i + 1]) == RecsOf(kids[..i]) + Recs(kids[i])
  {
    var before, mid, after := RecsOf(kids[..i]), Recs(kids[i]), RecsOf(kids[i + 1..]);
    RecsTo(kids, i);
    RecsFrom(kids, i);
    RecsBefore(kids, i);
    JoinThree(before, mid, after);
  }

  ghost predicate RecsIn(rs: seq<Rec>, lo: End, hi: End) {
    forall i :: 0 <= i < |rs| ==> Above(lo, rs[i].0) && Below(rs[i].0, hi)
  }

  ghost predicate RecsSorted(rs: seq<Rec>) {
    forall i, j :: 0 <= i < j < |rs| ==> rs[i].0 < rs[j].0
  }

  lemma JoinSorted(a: seq<Rec>, b: seq<Rec>, lo: End, k: Key, hi: End)
    requires RecsSorted(a) && RecsIn(a, lo, End.Key(k)) && RecsSorted(b) && RecsIn(b, End.Key(k), hi)
    requires Above(lo, k) && Below(k, hi)
    ensures RecsSorted(a + b) && RecsIn(a + b, lo, hi)
  {
  }

  /** A well-formed tree holds its records in strictly increasing key order, inside its
      interval. */
  lemma {:induction false} RecsOrdered(n: Node, h: nat, lo: End, hi: End, root: bool)
    requires WF(n, h, lo, hi, root)
    ensures RecsSorted(Recs(n)) && RecsIn(Recs(n), lo, hi)
    decreases h, 1, 0
  {
    if n.Inner? {
      KidsOrdered(n, h, lo, hi, root, |n.kids|);
      assert n.kids[..|n.kids|] == n.kids;
    }
  }

  lemma {:induction false} KidsOrdered(n: Node, h: nat, lo: End, hi: End, root: bool, i: nat)
    requires WF(n, h, lo, hi, root) && n.Inner? && 0 < i <= |n.kids|
    ensures RecsSorted(RecsOf(n.kids[..i])) && RecsIn(RecsOf(n.kids[..i]), lo, KidHi(n.keys, i - 1, hi))
    decreases h, 0, i
  {
    RecsSplit(n.kids, i - 1);
    RecsOrdered(n.kids[i - 1], h - 1, KidLo(n.keys, i - 1, lo), KidHi(n.keys, i - 1, hi), false);
    if i == 1 {
      assert RecsOf(n.kids[..0]) == [];
      assert [] + Recs(n.kids[0]) == Recs(n.kids[0]);
    } else {
      KidsOrdered(n, h, lo, hi, root, i - 1);
      JoinSorted(RecsOf(n.kids[..i - 1]), Recs(n.kids[i - 1]), lo, n.keys[i - 2], KidHi(n.keys, i - 1, hi));
    }
  }

  /** The records to the left of kid `i` are below its interval, those to the right are
      not. */
  lemma {:induction false} KidsAfter(n: Node, h: nat, lo: End, hi: End, root: bool, i: nat)
    requires WF(n, h, lo, hi, root) && n.Inner? && i < |n.kids|
    ensures RecsIn(RecsOf(n.kids[i..]), KidLo(n.keys, i, lo), hi)
    decreases |n.kids| - i
  {
    RecsSplit(n.kids, i);
    RecsOrdered(n.kids[i], h - 1, KidLo(n.keys, i, lo), KidHi(n.keys, i, hi), false);
    if i + 1 < |n.kids| {
      KidsAfter(n, h, lo, hi, root, i + 1);
    } else {
      assert n.kids[i + 1..] == [];
    }
  }

  // ---- paths and the search for a key ----

  /** A cursor position: a kid index for every interior level, a record index at the
      leaf, where the number of records stands for the end of the leaf. */
  ghost predicate IsPath(n: Node, path: seq<nat>)
    decreases |path|
  {
    match n
    case Leaf(_, _, keys, _) => |path| == 1 && path[0] <= |keys|
    case Inner(_, _, _, kids) => |path| >= 2 && path[0] < |kids| && IsPath(kids[path[0]], path[1..])
  }

  /** The path that `moveToKey` walks. */
  function KeyPath(n: Node, key: Key): seq<nat> {
    match n
    case Leaf(_, _, keys, _) => [RecIdx(keys, key)]
    case Inner(_, _, keys, kids) =>
      var i := KidIdx(keys, key);
      if i >= |kids| then [i] else [i] + KeyPath(kids[i], key)
  }

  lemma {:induction false} KeyPathIsPath(n: Node, h: nat, lo: End, hi: End, root: bool, key: Key)
    requires WF(n, h, lo, hi, root)
    ensures IsPath(n, KeyPath(n, key)) && |KeyPath(n, key)| == h + 1
  {
    if n.Inner? {
      var i := KidIdx(n.keys, key);
      KeyPathIsPath(n.kids[i], h - 1, KidLo(n.keys, i, lo), KidHi(n.keys, i, hi), false, key);
      assert KeyPath(n, key)[1..] == KeyPath(n.kids[i], key);
    }
  }

  /** The node `level` steps down a path. */
  function NodeAt(n: Node, path: seq<nat>, level: nat): Node
    decreases level
  {
    if level == 0 || n.Leaf? || path == [] || path[0] >= |n.kids| then n
    else NodeAt(n.kids[path[0]], path[1..], level - 1)
  }

  /** Its interval. */
  function LoAt(n: Node, path: seq<nat>, level: nat, lo: End): End
    decreases level
  {
    if level == 0 || n.Leaf? || path == [] || path[0] >= |n.kids| || path[0] > |n.keys| then lo
    else LoAt(n.kids[path[0]], path[1..], level - 1, KidLo(n.keys, path[0], lo))
  }

  function HiAt(n: Node, path: seq<nat>, level: nat, hi: End): End
    decreases level
  {
    if level == 0 || n.Leaf? || path == [] || path[0] >= |n.kids| || path[0] > |n.keys| then hi
    else HiAt(n.kids[path[0]], path[1..], level - 1, KidHi(n.keys, path[0], hi))
  }

  lemma {:induction false} NodeAtWF(n: Node, h: nat, lo: End, hi: End, root: bool, path: seq<nat>, level: nat)
    requires WF(n, h, lo, hi, root) && IsPath(n, path) && level < |path|
    ensures |path| == h + 1
    ensures WF(NodeAt(n, path, level), h - level, LoAt(n, path, level, lo), HiAt(n, path, level, hi), root && level == 0)
    ensures IsPath(NodeAt(n, path, level), path[level..])
    decreases h
  {
    if n.Inner? {
      var i := path[0];
      if level > 0 {
        NodeAtWF(n.kids[i], h - 1, KidLo(n.keys, i, lo), KidHi(n.keys, i, hi), false, path[1..], level - 1);
        assert path[1..][level - 1..] == path[level..];
      } else {
        NodeAtWF(n.kids[i], h - 1, KidLo(n.keys, i, lo), KidHi(n.keys, i, hi), false, path[1..], 0);
      }
    }
  }

  // ---- the finger ----

  /** `isNodeParent`: the node is sure to be on the search path of the key. */
  predicate NodeIsParent(n: Node, key: Key) {
    match n
    case Leaf(first, last, keys, _) =>
      |keys| == 0 || ((keys[0] <= key || first) && (key <= keys[|keys| - 1] || last))
    case Inner(_, _, keys, _) => 0 < KidIdx(keys, key) < |keys|
  }

  /** The level at which `AscendToParent` stops, starting from `level`. */
  function Ascend(n: Node, path: seq<nat>, level: nat, key: Key): (l: nat)
    ensures l <= level
    decreases level
  {
    if level == 0 || NodeIsParent(NodeAt(n, path, level), key) then level
    else Ascend(n, path, level - 1, key)
  }

  /** A node that says it is a parent has the key in its interval: below the root, where
      only leaves with records and nodes with both neighbours say so. */
  lemma ParentHasKey(n: Node, h: nat, lo: End, hi: End, key: Key)
    requires WF(n, h, lo, hi, false) && NodeIsParent(n, key)
    ensures Above(lo, key) && Below(key, hi)
  {
    match n {
      case Leaf(_, _, keys, _) => assert keys[0] <= keys[|keys| - 1];
      case Inner(_, _, keys, _) =>
        assert keys[0] <= key < keys[KidIdx(keys, key)];
    }
  }

  /** When exactly a node below the root says so: a leaf, for keys from its first to its
      last one, and beyond them where the tree ends there; an interior node, for keys that
      lie between two of its own. */
  lemma ParentIs(n: Node, h: nat, lo: End, hi: End, key: Key)
    requires WF(n, h, lo, hi, false)
    ensures n.keys != []
    ensures n.Leaf? ==>
      (NodeIsParent(n, key) <==> (lo.Open? || n.keys[0] <= key) && (hi.Open? || key <= n.keys[|n.keys| - 1]))
    ensures n.Inner? ==> (NodeIsParent(n, key) <==> n.keys[0] <= key < n.keys[|n.keys| - 1])
  {
    if n.Inner? {
      var i := KidIdx(n.keys, key);
      if i < |n.keys| { assert key < n.keys[i] <= n.keys[|n.keys| - 1]; }
    }
  }

  /** The climb passes only nodes that do not say so, and stops at one that does or at the
      root. */
  lemma {:induction false} AscendStops(n: Node, path: seq<nat>, level: nat, key: Key)
    ensures var l := Ascend(n, path, level, key);
      && (l == 0 || NodeIsParent(NodeAt(n, path, l), key))
      && forall m :: l < m <= level ==> !NodeIsParent(NodeAt(n, path, m), key)
    decreases level
  {
    if level > 0 && !NodeIsParent(NodeAt(n, path, level), key) { AscendStops(n, path, level - 1, key); }
  }

  /** A search for a key of the leaf that the cursor is in, or beyond the last key of the
      last leaf, does not leave the leaf. */
  lemma FingerStays(root: Node, h: nat, path: seq<nat>, key: Key)
    requires WF(root, h, Open, Open, true) && IsPath(root, path) && |path| == h + 1
    requires
      var leaf := NodeAt(root, path, h);
      key in leaf.keys || (leaf.last && leaf.keys != [] && leaf.keys[|leaf.keys| - 1] < key)
    ensures Ascend(root, path, h, key) == h
  {
    NodeAtWF(root, h, Open, Open, true, path, h);
    if h > 0 { ParentIs(NodeAt(root, path, h), 0, LoAt(root, path, h, Open), HiAt(root, path, h, Open), key); }
  }

  lemma KidForKey(n: Node, lo: End, hi: End, i: nat, key: Key)
    requires n.Inner? && Sorted(n.keys) && i <= |n.keys|
    requires Above(KidLo(n.keys, i, lo), key) && Below(key, KidHi(n.keys, i, hi))
    ensures KidIdx(n.keys, key) == i
  {
    KidIdxIs(n.keys, key, i);
  }

  /** A path goes on in the kid that it takes first. */
  lemma PathStep(n: Node, h: nat, lo: End, hi: End, root: bool, path: seq<nat>, level: nat)
    requires WF(n, h, lo, hi, root) && IsPath(n, path) && 0 < level < |path|
    ensures n.Inner? && h > 0 && path[0] < |n.kids| == |n.keys| + 1
    ensures WF(n.kids[path[0]], h - 1, KidLo(n.keys, path[0], lo), KidHi(n.keys, path[0], hi), false)
    ensures IsPath(n.kids[path[0]], path[1..]) && NodeAt(n, path, level) == NodeAt(n.kids[path[0]], path[1..], level - 1)
    ensures LoAt(n, path, level, lo) == LoAt(n.kids[path[0]], path[1..], level - 1, KidLo(n.keys, path[0], lo))
    ensures HiAt(n, path, level, hi) == HiAt(n.kids[path[0]], path[1..], level - 1, KidHi(n.keys, path[0], hi))
  {
  }

  lemma PathHead(path: seq<nat>, level: nat)
    requires 0 < level < |path|
    ensures path[..level] == [path[0]] + path[1..][..level - 1]
  {
  }

  lemma Reassociate(i: nat, a: seq<nat>, b: seq<nat>)
    ensures [i] + (a + b) == ([i] + a) + b
  {
  }

  /** If the node `level` steps down a path has the key in its interval, the search for
      the key takes these steps too. */
  lemma {:induction false} SearchFollows(n: Node, h: nat, lo: End, hi: End, root: bool,
      path: seq<nat>, level: nat, key: Key)
    requires WF(n, h, lo, hi, root) && IsPath(n, path) && level < |path|
    requires Above(LoAt(n, path, level, lo), key) && Below(key, HiAt(n, path, level, hi))
    ensures KeyPath(n, key) == path[..level] + KeyPath(NodeAt(n, path, level), key)
    decreases h
  {
    if level == 0 {
      assert path[..0] == [];
    } else {
      PathStep(n, h, lo, hi, root, path, level);
      var i := path[0];
      var lo', hi' := KidLo(n.keys, i, lo), KidHi(n.keys, i, hi);
      NarrowLo(n.kids[i], h - 1, lo', hi', false, path[1..], level - 1, key);
      KidForKey(n, lo, hi, i, key);
      SearchFollows(n.kids[i], h - 1, lo', hi', false, path[1..], level - 1, key);
      PathHead(path, level);
      Reassociate(i, path[1..][..level - 1], KeyPath(NodeAt(n.kids[i], path[1..], level - 1), key));
    }
  }

  /** Intervals only shrink on the way down. */
  lemma {:induction false} NarrowLo(n: Node, h: nat, lo: End, hi: End, root: bool,
      path: seq<nat>, level: nat, key: Key)
    requires WF(n, h, lo, hi, root) && IsPath(n, path) && level < |path|
    requires Above(LoAt(n, path, level, lo), key) && Below(key, HiAt(n, path, level, hi))
    ensures Above(lo, key) && Below(key, hi)
    decreases h
  {
    if level > 0 {
      PathStep(n, h, lo, hi, root, path, level);
      var i := path[0];
      NarrowLo(n.kids[i], h - 1, KidLo(n.keys, i, lo), KidHi(n.keys, i, hi), false, path[1..], level - 1, key);
    }
  }

  lemma StopHere(n: Node, h: nat, path: seq<nat>, level: nat, key: Key)
    requires WF(n, h, Open, Open, true) && IsPath(n, path) && 0 < level < |path|
    requires NodeIsParent(NodeAt(n, path, level), key)
    ensures KeyPath(n, key) == path[..level] + KeyPath(NodeAt(n, path, level), key)
  {
    NodeAtWF(n, h, Open, Open, true, path, level);
    ParentHasKey(NodeAt(n, path, level), h - level, LoAt(n, path, level, Open), HiAt(n, path, level, Open), key);
    SearchFollows(n, h, Open, Open, true, path, level, key);
  }

  /** Finger search is root search: from any cursor position, climbing as far as
      `AscendToParent` does and descending from there ends where the search from the
      root ends, with the same indices on every level. */
  lemma {:induction false} FingerIsRootSearch(n: Node, h: nat, path: seq<nat>, level: nat, key: Key)
    requires WF(n, h, Open, Open, true) && IsPath(n, path) && level < |path|
    ensures var l := Ascend(n, path, level, key);
      KeyPath(n, key) == path[..l] + KeyPath(NodeAt(n, path, l), key)
    decreases level
  {
    if level == 0 {
      assert path[..0] == [];
    } else if NodeIsParent(NodeAt(n, path, level), key) {
      StopHere(n, h, path, level, key);
    } else {
      FingerIsRootSearch(n, h, path, level - 1, key);
    }
  }
}
