/** Putting a record: the node operations and their effect on the records, the growing
    root, and how deep a tree can get. */
module BTreeInsert {
  import opened BTree
  import opened BTreeMoves

  function InsertSeq<T>(s: seq<T>, i: nat, x: T): (r: seq<T>)
    requires i <= |s|
    ensures |r| == |s| + 1
  {
    s[..i] + [x] + s[i..]
  }

  /** What a node becomes: itself changed, or split around a separator. */
  datatype Grown = One(node: Node) | Two(left: Node, sep: Key, right: Node)

  /** A new record at index `i` of a leaf; a full leaf splits into two leaves of 8. */
  function AddRec(n: Node, i: nat, k: Key, v: Value): Grown
    requires n.Leaf? && |n.recs| == |n.keys| && i <= |n.keys| <= FANOUT
  {
    var keys, recs := InsertSeq(n.keys, i, k), InsertSeq(n.recs, i, v);
    if |n.keys| < FANOUT then One(n.(keys := keys, recs := recs))
    else Two(Leaf(n.first, false, keys[..MIDDLE], recs[..MIDDLE]), keys[MIDDLE],
             Leaf(false, n.last, keys[MIDDLE..], recs[MIDDLE..]))
  }

  /** A new separator and kid to the right of kid `i`; a full node splits around its
      middle key, which goes up. */
  function AddKid(n: Node, i: nat, s: Key, r: Node): Grown
    requires n.Inner? && |n.kids| == |n.keys| + 1 && i <= |n.keys| <= FANOUT
  {
    var keys, kids := InsertSeq(n.keys, i, s), InsertSeq(n.kids, i + 1, r);
    if |n.keys| < FANOUT then One(n.(keys := keys, kids := kids))
    else Two(Inner(n.first, false, keys[..MIDDLE], kids[..MIDDLE + 1]), keys[MIDDLE],
             Inner(false, n.last, keys[MIDDLE + 1..], kids[MIDDLE + 1..]))
  }

  /** A split leaf: two halves of 8 that are all its entries, in order, with the first key
      of the upper half going up. */
  lemma LeafSplit(n: Node, i: nat, k: Key, v: Value)
    requires n.Leaf? && |n.recs| == |n.keys| && i <= |n.keys| <= FANOUT
    ensures AddRec(n, i, k, v).Two? <==> |n.keys| == FANOUT
    ensures AddRec(n, i, k, v).Two? ==>
      var g := AddRec(n, i, k, v);
      && |g.left.keys| == |g.right.keys| == 8 && g.sep == g.right.keys[0]
      && g.left.keys + g.right.keys == n.keys[..i] + [k] + n.keys[i..]
      && g.left.recs + g.right.recs == n.recs[..i] + [v] + n.recs[i..]
  {
    if |n.keys| == FANOUT {
      HalvesJoin(InsertSeq(n.keys, i, k), MIDDLE);
      HalvesJoin(InsertSeq(n.recs, i, v), MIDDLE);
    }
  }

  /** A split interior node: 8 keys below and 7 above the one that goes up, all of them in
      order, and 9 and 8 kids. */
  lemma InnerSplit(n: Node, i: nat, s: Key, r: Node)
    requires n.Inner? && |n.kids| == |n.keys| + 1 && i <= |n.keys| <= FANOUT
    ensures AddKid(n, i, s, r).Two? <==> |n.keys| == FANOUT
    ensures AddKid(n, i, s, r).Two? ==>
      var g := AddKid(n, i, s, r);
      && |g.left.keys| == 8 && |g.right.keys| == 7 && |g.left.kids| == 9 && |g.right.kids| == 8
      && g.left.keys + [g.sep] + g.right.keys == n.keys[..i] + [s] + n.keys[i..]
      && g.left.kids + g.right.kids == n.kids[..i + 1] + [r] + n.kids[i + 1..]
  {
    if |n.keys| == FANOUT {
      var keys := InsertSeq(n.keys, i, s);
      HalvesJoin(keys, MIDDLE);
      assert keys[MIDDLE..] == [keys[MIDDLE]] + keys[MIDDLE + 1..];
      HalvesJoin(InsertSeq(n.kids, i + 1, r), MIDDLE + 1);
    }
  }

  lemma HalvesJoin<T>(s: seq<T>, m: nat)
    requires m <= |s|
    ensures s[..m] + s[m..] == s
  {
  }

  /** A record for `k` in a leaf: overwritten where the key is, added where it is not. */
  function PutInLeaf(n: Node, k: Key, v: Value): Grown
    requires n.Leaf? && |n.recs| == |n.keys| <= FANOUT
  {
    var i := RecIdx(n.keys, k);
    if i < |n.keys| && n.keys[i] == k then One(n.(recs := n.recs[i := v])) else AddRec(n, i, k, v)
  }

  /** Kid `i` has become `g`. */
  function Attach(n: Node, i: nat, g: Grown): Grown
    requires n.Inner? && |n.kids| == |n.keys| + 1 && i <= |n.keys| <= FANOUT
  {
    match g
    case One(c) => One(n.(kids := n.kids[i := c]))
    case Two(l, s, r) => AddKid(n.(kids := n.kids[i := l]), i, s, r)
  }

  ghost function Put(n: Node, h: nat, lo: End, hi: End, root: bool, k: Key, v: Value): Grown
    requires WF(n, h, lo, hi, root)
    decreases h
  {
    match n
    case Leaf(_, _, _, _) => PutInLeaf(n, k, v)
    case Inner(_, _, keys, kids) =>
      var i := KidIdx(keys, k);
      Attach(n, i, Put(kids[i], h - 1, KidLo(keys, i, lo), KidHi(keys, i, hi), false, k, v))
  }

  // ---- the records ----

  /** The sorted records with the record of `k` replaced, or put where it belongs. */
  function Upsert(rs: seq<Rec>, k: Key, v: Value): seq<Rec> {
    if HasRec(rs, k) then rs[Pos(rs, k) := (k, v)] else InsertSeq(rs, Pos(rs, k), (k, v))
  }

  /** The sorted records have one for `k`. */
  predicate HasRec(rs: seq<Rec>, k: Key) {
    Pos(rs, k) < |rs| && rs[Pos(rs, k)].0 == k
  }

  /** The records as a map. */
  function ToMap(rs: seq<Rec>): map<Key, Value> {
    if rs == [] then map[] else ToMap(rs[..|rs| - 1])[rs[|rs| - 1].0 := rs[|rs| - 1].1]
  }

  lemma {:induction false} ToMapHas(rs: seq<Rec>, k: Key)
    requires RecsSorted(rs)
    ensures k in ToMap(rs) <==> exists i :: 0 <= i < |rs| && rs[i].0 == k
    ensures forall i :: 0 <= i < |rs| && rs[i].0 == k ==> ToMap(rs)[k] == rs[i].1
  {
    if rs != [] {
      var n := |rs| - 1;
      ToMapHas(rs[..n], k);
      assert forall i :: 0 <= i < n ==> rs[..n][i] == rs[i];
    }
  }

  /** As many records as different keys. */
  lemma {:induction false} CountIsKeys(rs: seq<Rec>)
    requires RecsSorted(rs)
    ensures |ToMap(rs)| == |rs|
  {
    if rs != [] {
      var n := |rs| - 1;
      CountIsKeys(rs[..n]);
      ToMapHas(rs[..n], rs[n].0);
      assert ToMap(rs).Keys == ToMap(rs[..n]).Keys + {rs[n].0};
    }
  }

  lemma InsertAt<T>(s: seq<T>, p: nat, x: T)
    requires p <= |s|
    ensures InsertSeq(s, p, x)[p] == x
    ensures forall i :: 0 <= i < p ==> InsertSeq(s, p, x)[i] == s[i]
    ensures forall i :: p < i <= |s| ==> InsertSeq(s, p, x)[i] == s[i - 1]
  {
  }

  lemma InsertHas<T>(s: seq<T>, p: nat, x: T, y: T)
    requires p <= |s|
    ensures y in InsertSeq(s, p, x) <==> y == x || y in s
  {
    assert s == s[..p] + s[p..];
  }

  lemma UpdateHas<T>(s: seq<T>, p: nat, x: T, y: T)
    requires p < |s| && y != x && y != s[p]
    ensures y in s[p := x] <==> y in s
  {
    if y in s {
      var i :| 0 <= i < |s| && s[i] == y;
      assert s[p := x][i] == y;
    }
  }

  /** The upserted record is at the place of its key. */
  lemma UpsertHere(rs: seq<Rec>, k: Key, v: Value)
    ensures Pos(rs, k) < |Upsert(rs, k, v)| == |rs| + if HasRec(rs, k) then 0 else 1
    ensures Upsert(rs, k, v)[Pos(rs, k)] == (k, v)
  {
  }

  lemma InsertKeepsOrder(rs: seq<Rec>, p: nat, k: Key, v: Value)
    requires RecsSorted(rs) && p <= |rs|
    requires (forall i :: 0 <= i < p ==> rs[i].0 < k) && (p < |rs| ==> k < rs[p].0)
    ensures RecsSorted(InsertSeq(rs, p, (k, v)))
  {
    var rs' := InsertSeq(rs, p, (k, v));
    InsertAt(rs, p, (k, v));
    forall i, j | 0 <= i < j < |rs'| ensures rs'[i].0 < rs'[j].0 {
      if p < j { assert rs'[j] == rs[j - 1] && (p < j - 1 ==> rs[p].0 < rs[j - 1].0); }
      if p < i { assert rs'[i] == rs[i - 1]; }
    }
  }

  lemma UpsertSorted(rs: seq<Rec>, k: Key, v: Value)
    requires RecsSorted(rs)
    ensures RecsSorted(Upsert(rs, k, v)) && Pos(Upsert(rs, k, v), k) == Pos(rs, k)
  {
    var p := Pos(rs, k);
    if !HasRec(rs, k) {
      InsertKeepsOrder(rs, p, k, v);
      InsertAt(rs, p, (k, v));
    }
    PosIs(Upsert(rs, k, v), k, p);
  }

  lemma UpsertHas(rs: seq<Rec>, k: Key, v: Value, x: Key, y: Value)
    requires x != k
    ensures (x, y) in Upsert(rs, k, v) <==> (x, y) in rs
  {
    if HasRec(rs, k) {
      UpdateHas(rs, Pos(rs, k), (k, v), (x, y));
    } else {
      InsertHas(rs, Pos(rs, k), (k, v), (x, y));
    }
  }

  /** What a sorted sequence holds is what its map holds. */
  lemma MapHolds(rs: seq<Rec>, x: Key, y: Value)
    requires RecsSorted(rs)
    ensures (x, y) in rs <==> x in ToMap(rs) && ToMap(rs)[x] == y
  {
    ToMapHas(rs, x);
    if x in ToMap(rs) {
      var i :| 0 <= i < |rs| && rs[i].0 == x;
      assert rs[i] == (x, ToMap(rs)[x]);
    }
  }

  /** Upsert on the sorted records is update on the map. */
  lemma UpsertIsUpdate(rs: seq<Rec>, k: Key, v: Value)
    requires RecsSorted(rs)
    ensures ToMap(Upsert(rs, k, v)) == ToMap(rs)[k := v]
  {
    var m, m' := ToMap(rs)[k := v], ToMap(Upsert(rs, k, v));
    forall x ensures (x in m' <==> x in m) && (x in m ==> m'[x] == m[x]) {
      UpdateAt(rs, k, v, x);
    }
  }

  lemma UpdateAt(rs: seq<Rec>, k: Key, v: Value, x: Key)
    requires RecsSorted(rs)
    ensures x in ToMap(Upsert(rs, k, v)) <==> x in ToMap(rs)[k := v]
    ensures x in ToMap(rs)[k := v] ==> ToMap(Upsert(rs, k, v))[x] == ToMap(rs)[k := v][x]
  {
    var rs' := Upsert(rs, k, v);
    UpsertSorted(rs, k, v);
    if x == k {
      UpsertHere(rs, k, v);
      MapHolds(rs', k, v);
    } else {
      if x in ToMap(rs) { SameValue(rs, k, v, x, ToMap(rs)[x]); }
      if x in ToMap(rs') { SameValue(rs, k, v, x, ToMap(rs')[x]); }
    }
  }

  lemma SameValue(rs: seq<Rec>, k: Key, v: Value, x: Key, y: Value)
    requires RecsSorted(rs) && RecsSorted(Upsert(rs, k, v)) && x != k
    ensures (x in ToMap(rs) && ToMap(rs)[x] == y) <==> (x in ToMap(Upsert(rs, k, v)) && ToMap(Upsert(rs, k, v))[x] == y)
  {
    UpsertHas(rs, k, v, x, y);
    MapHolds(rs, x, y);
    MapHolds(Upsert(rs, k, v), x, y);
  }

  lemma InsertInMiddle<T>(a: seq<T>, b: seq<T>, c: seq<T>, i: nat, x: T)
    requires i <= |b|
    ensures InsertSeq(a + b + c, |a| + i, x) == a + InsertSeq(b, i, x) + c
  {
    assert (a + b + c)[..|a| + i] == a + b[..i];
    assert (a + b + c)[|a| + i..] == b[i..] + c;
  }

  lemma UpdateInMiddle<T>(a: seq<T>, b: seq<T>, c: seq<T>, i: nat, x: T)
    requires i < |b|
    ensures (a + b + c)[|a| + i] == b[i] && (a + b + c)[|a| + i := x] == a + b[i := x] + c
  {
  }

  lemma HasRecInMiddle(left: seq<Rec>, mid: seq<Rec>, right: seq<Rec>, k: Key)
    requires AllBelow(left, k) && AllAbove(right, k)
    ensures HasRec(left + mid + right, k) <==> HasRec(mid, k)
  {
    var p := Pos(mid, k);
    PosInMiddle(left, mid, right, k);
    if p < |mid| {
      UpdateInMiddle(left, mid, right, p, mid[p]);
    } else if right != [] {
      assert (left + mid + right)[|left| + |mid|] == right[0];
    }
  }

  lemma UpsertInMiddle(left: seq<Rec>, mid: seq<Rec>, right: seq<Rec>, k: Key, v: Value)
    requires AllBelow(left, k) && AllAbove(right, k)
    ensures Upsert(left + mid + right, k, v) == left + Upsert(mid, k, v) + right
  {
    PosInMiddle(left, mid, right, k);
    HasRecInMiddle(left, mid, right, k);
    if HasRec(mid, k) {
      UpdateInMiddle(left, mid, right, Pos(mid, k), (k, v));
    } else {
      InsertInMiddle(left, mid, right, Pos(mid, k), (k, v));
    }
  }

  // ---- leaves ----

  /** A grown node of height `h` for its interval, holding the records `rs`. */
  ghost predicate GrownOk(g: Grown, h: nat, lo: End, hi: End, root: bool, rs: seq<Rec>) {
    match g
    case One(n) => WF(n, h, lo, hi, root) && Recs(n) == rs
    case Two(l, s, r) =>
      && Above(lo, s) && Below(s, hi) && Before(lo, End.Key(s))
      && WF(l, h, lo, End.Key(s), false) && WF(r, h, End.Key(s), hi, false) && Recs(l) + Recs(r) == rs
  }

  lemma InsertSorted(keys: seq<Key>, i: nat, k: Key)
    requires Sorted(keys) && i <= |keys|
    requires (i > 0 ==> keys[i - 1] < k) && (i < |keys| ==> k < keys[i])
    ensures Sorted(InsertSeq(keys, i, k))
  {
  }

  lemma LeafWF(n: Node, lo: End, hi: End, root: bool)
    requires n.Leaf?
    ensures WF(n, 0, lo, hi, root) <==>
      && Sorted(n.keys) && KeysIn(n.keys, lo, hi) && SizeOk(n, root)
      && n.first == lo.Open? && n.last == hi.Open?
  {
  }

  ghost predicate KeysIn(keys: seq<Key>, lo: End, hi: End) {
    forall i :: 0 <= i < |keys| ==> Above(lo, keys[i]) && Below(keys[i], hi)
  }

  /** The records of a leaf with these keys. */
  function Zip(keys: seq<Key>, recs: seq<Value>): (rs: seq<Rec>)
    requires |recs| == |keys|
  {
    seq(|keys|, i requires 0 <= i < |keys| => (keys[i], recs[i]))
  }

  lemma LeafRecs(n: Node)
    requires n.Leaf? && |n.recs| == |n.keys|
    ensures Recs(n) == Zip(n.keys, n.recs)
  {
  }

  lemma ZipInsert(keys: seq<Key>, recs: seq<Value>, i: nat, k: Key, v: Value)
    requires |recs| == |keys| && i <= |keys|
    ensures Zip(InsertSeq(keys, i, k), InsertSeq(recs, i, v)) == InsertSeq(Zip(keys, recs), i, (k, v))
  {
  }

  lemma ZipSplit(keys: seq<Key>, recs: seq<Value>, m: nat)
    requires |recs| == |keys| && m <= |keys|
    ensures Zip(keys[..m], recs[..m]) + Zip(keys[m..], recs[m..]) == Zip(keys, recs)
  {
  }

  lemma KeysHalves(keys: seq<Key>, lo: End, hi: End, m: nat)
    requires Sorted(keys) && KeysIn(keys, lo, hi) && 0 < m < |keys|
    ensures Sorted(keys[..m]) && KeysIn(keys[..m], lo, End.Key(keys[m]))
    ensures Sorted(keys[m..]) && KeysIn(keys[m..], End.Key(keys[m]), hi)
    ensures Above(lo, keys[m]) && Below(keys[m], hi) && Before(lo, End.Key(keys[m]))
  {
    assert Above(lo, keys[0]) && keys[0] < keys[m];
  }

  lemma AddRecOk(n: Node, lo: End, hi: End, root: bool, k: Key, v: Value)
    requires WF(n, 0, lo, hi, root) && n.Leaf? && Above(lo, k) && Below(k, hi)
    requires var i := RecIdx(n.keys, k); i == |n.keys| || n.keys[i] != k
    ensures var i := RecIdx(n.keys, k);
      GrownOk(AddRec(n, i, k, v), 0, lo, hi, root, InsertSeq(Recs(n), i, (k, v)))
  {
    var i := RecIdx(n.keys, k);
    LeafWF(n, lo, hi, root);
    LeafRecs(n);
    InsertSorted(n.keys, i, k);
    var keys, recs := InsertSeq(n.keys, i, k), InsertSeq(n.recs, i, v);
    assert KeysIn(keys, lo, hi);
    ZipInsert(n.keys, n.recs, i, k, v);
    LeafGrown(n, lo, hi, root, keys, recs);
  }

  /** A leaf with one record more, or its two halves. */
  lemma LeafGrown(n: Node, lo: End, hi: End, root: bool, keys: seq<Key>, recs: seq<Value>)
    requires n.Leaf? && n.first == lo.Open? && n.last == hi.Open? && SizeOk(n, root)
    requires |keys| == |recs| == |n.keys| + 1 && Sorted(keys) && KeysIn(keys, lo, hi)
    ensures |n.keys| < FANOUT ==>
      GrownOk(One(n.(keys := keys, recs := recs)), 0, lo, hi, root, Zip(keys, recs))
    ensures |n.keys| == FANOUT ==>
      GrownOk(Two(Leaf(n.first, false, keys[..MIDDLE], recs[..MIDDLE]), keys[MIDDLE],
                  Leaf(false, n.last, keys[MIDDLE..], recs[MIDDLE..])), 0, lo, hi, root, Zip(keys, recs))
  {
    if |n.keys| < FANOUT {
      LeafWF(n.(keys := keys, recs := recs), lo, hi, root);
      LeafRecs(n.(keys := keys, recs := recs));
    } else {
      var l, r := Leaf(n.first, false, keys[..MIDDLE], recs[..MIDDLE]), Leaf(false, n.last, keys[MIDDLE..], recs[MIDDLE..]);
      KeysHalves(keys, lo, hi, MIDDLE);
      LeafWF(l, lo, End.Key(keys[MIDDLE]), false);
      LeafWF(r, End.Key(keys[MIDDLE]), hi, false);
      LeafRecs(l);
      LeafRecs(r);
      ZipSplit(keys, recs, MIDDLE);
    }
  }

  lemma PutInLeafOk(n: Node, lo: End, hi: End, root: bool, k: Key, v: Value)
    requires WF(n, 0, lo, hi, root) && n.Leaf? && Above(lo, k) && Below(k, hi)
    ensures GrownOk(PutInLeaf(n, k, v), 0, lo, hi, root, Upsert(Recs(n), k, v))
  {
    var i := RecIdx(n.keys, k);
    PosIs(Recs(n), k, i);
    if i < |n.keys| && n.keys[i] == k {
      assert Recs(n.(recs := n.recs[i := v])) == Recs(n)[i := (k, v)];
    } else {
      AddRecOk(n, lo, hi, root, k, v);
    }
  }

  // ---- interior nodes ----

  ghost predicate KidsWF(keys: seq<Key>, kids: seq<Node>, h: nat, lo: End, hi: End) {
    && |kids| == |keys| + 1
    && forall j :: 0 <= j < |kids| ==> WF(kids[j], h, KidLo(keys, j, lo), KidHi(keys, j, hi), false)
  }

  ghost predicate SepsOk(keys: seq<Key>, lo: End, hi: End) {
    && Sorted(keys)
    && forall j :: 0 <= j < |keys| ==>
         Above(lo, keys[j]) && Below(keys[j], hi) && Before(lo, End.Key(keys[j]))
  }

  lemma KidsInsert(keys: seq<Key>, kids: seq<Node>, h: nat, lo: End, hi: End, i: nat, l: Node, s: Key, r: Node)
    requires KidsWF(keys, kids, h, lo, hi) && i <= |keys|
    requires WF(l, h, KidLo(keys, i, lo), End.Key(s), false) && WF(r, h, End.Key(s), KidHi(keys, i, hi), false)
    ensures KidsWF(InsertSeq(keys, i, s), InsertSeq(kids[i := l], i + 1, r), h, lo, hi)
  {
    var keys', kids' := InsertSeq(keys, i, s), InsertSeq(kids[i := l], i + 1, r);
    forall j | 0 <= j < |kids'| ensures WF(kids'[j], h, KidLo(keys', j, lo), KidHi(keys', j, hi), false) {
      if j < i {
        assert kids'[j] == kids[j] && KidLo(keys', j, lo) == KidLo(keys, j, lo) && KidHi(keys', j, hi) == KidHi(keys, j, hi);
      } else if j > i + 1 {
        assert kids'[j] == kids[j - 1];
        assert KidLo(keys', j, lo) == KidLo(keys, j - 1, lo) && KidHi(keys', j, hi) == KidHi(keys, j - 1, hi);
      }
    }
  }

  lemma SepsInsert(keys: seq<Key>, lo: End, hi: End, i: nat, s: Key)
    requires SepsOk(keys, lo, hi) && i <= |keys|
    requires Before(KidLo(keys, i, lo), End.Key(s)) && Above(KidLo(keys, i, lo), s) && Below(s, KidHi(keys, i, hi))
    ensures SepsOk(InsertSeq(keys, i, s), lo, hi)
  {
    InsertSorted(keys, i, s);
    assert i > 0 ==> Above(lo, keys[i - 1]) && Before(lo, End.Key(keys[i - 1]));
    assert i < |keys| ==> Below(keys[i], hi);
  }

  /** Both halves of a split interior node are fit, around the key that goes up. */
  lemma KidsSplit(keys: seq<Key>, kids: seq<Node>, h: nat, lo: End, hi: End, m: nat)
    requires KidsWF(keys, kids, h, lo, hi) && SepsOk(keys, lo, hi) && m < |keys|
    ensures KidsWF(keys[..m], kids[..m + 1], h, lo, End.Key(keys[m])) && SepsOk(keys[..m], lo, End.Key(keys[m]))
    ensures KidsWF(keys[m + 1..], kids[m + 1..], h, End.Key(keys[m]), hi)
    ensures SepsOk(keys[m + 1..], End.Key(keys[m]), hi)
  {
    forall j | 0 <= j < m + 1
      ensures WF(kids[..m + 1][j], h, KidLo(keys[..m], j, lo), KidHi(keys[..m], j, End.Key(keys[m])), false)
    {
      assert KidLo(keys[..m], j, lo) == KidLo(keys, j, lo) && KidHi(keys[..m], j, End.Key(keys[m])) == KidHi(keys, j, hi);
    }
    var ks := keys[m + 1..];
    forall j | 0 <= j < |kids| - m - 1
      ensures WF(kids[m + 1..][j], h, KidLo(ks, j, End.Key(keys[m])), KidHi(ks, j, hi), false)
    {
      assert KidLo(ks, j, End.Key(keys[m])) == KidLo(keys, m + 1 + j, lo) && KidHi(ks, j, hi) == KidHi(keys, m + 1 + j, hi);
    }
  }

  lemma InnerWF(n: Node, h: nat, lo: End, hi: End, root: bool)
    requires n.Inner? && h > 0
    ensures WF(n, h, lo, hi, root) <==>
      && KidsWF(n.keys, n.kids, h - 1, lo, hi) && SepsOk(n.keys, lo, hi) && SizeOk(n, root)
      && n.first == lo.Open? && n.last == hi.Open?
  {
  }

  lemma RecsInsert(kids: seq<Node>, i: nat, l: Node, r: Node)
    requires i < |kids|
    ensures RecsOf(InsertSeq(kids[i := l], i + 1, r)) == RecsOf(kids[..i]) + (Recs(l) + Recs(r)) + RecsOf(kids[i + 1..])
  {
    var kids' := InsertSeq(kids[i := l], i + 1, r);
    assert kids' == kids[..i] + ([l, r] + kids[i + 1..]);
    RecsOfAppend(kids[..i], [l, r] + kids[i + 1..]);
    RecsOfAppend([l, r], kids[i + 1..]);
    assert RecsOf([l, r]) == Recs(l) + Recs(r) by {
      assert [l, r][1..] == [r] && RecsOf([r]) == Recs(r) + [];
    }
  }

  lemma RecsReplace(kids: seq<Node>, i: nat, c: Node)
    requires i < |kids|
    ensures RecsOf(kids[i := c]) == RecsOf(kids[..i]) + Recs(c) + RecsOf(kids[i + 1..])
  {
    RecsSplit(kids[i := c], i);
    assert kids[i := c][..i] == kids[..i] && kids[i := c][i + 1..] == kids[i + 1..];
  }

  lemma AttachOne(n: Node, h: nat, lo: End, hi: End, root: bool, i: nat, c: Node)
    requires WF(n, h, lo, hi, root) && n.Inner? && i < |n.kids|
    requires WF(c, h - 1, KidLo(n.keys, i, lo), KidHi(n.keys, i, hi), false)
    ensures WF(n.(kids := n.kids[i := c]), h, lo, hi, root)
    ensures Recs(n.(kids := n.kids[i := c])) == RecsOf(n.kids[..i]) + Recs(c) + RecsOf(n.kids[i + 1..])
  {
    RecsReplace(n.kids, i, c);
  }

  lemma AttachTwo(n: Node, h: nat, lo: End, hi: End, root: bool, i: nat, l: Node, s: Key, r: Node)
    requires WF(n, h, lo, hi, root) && n.Inner? && i < |n.kids|
    requires Above(KidLo(n.keys, i, lo), s) && Below(s, KidHi(n.keys, i, hi)) && Before(KidLo(n.keys, i, lo), End.Key(s))
    requires WF(l, h - 1, KidLo(n.keys, i, lo), End.Key(s), false)
    requires WF(r, h - 1, End.Key(s), KidHi(n.keys, i, hi), false)
    ensures GrownOk(Attach(n, i, Two(l, s, r)), h, lo, hi, root,
      RecsOf(n.kids[..i]) + (Recs(l) + Recs(r)) + RecsOf(n.kids[i + 1..]))
  {
    InnerWF(n, h, lo, hi, root);
    var keys, kids := InsertSeq(n.keys, i, s), InsertSeq(n.kids[i := l], i + 1, r);
    KidsInsert(n.keys, n.kids, h - 1, lo, hi, i, l, s, r);
    SepsInsert(n.keys, lo, hi, i, s);
    RecsInsert(n.kids, i, l, r);
    InnerGrown(n, h, lo, hi, root, keys, kids);
  }

  /** The two halves of an interior node that has one separator and kid too many. */
  lemma InnerHalves(n: Node, h: nat, lo: End, hi: End, root: bool, keys: seq<Key>, kids: seq<Node>)
    requires n.Inner? && n.first == lo.Open? && n.last == hi.Open? && h > 0
    requires |keys| == FANOUT + 1 && KidsWF(keys, kids, h - 1, lo, hi) && SepsOk(keys, lo, hi)
    ensures GrownOk(Two(Inner(n.first, false, keys[..MIDDLE], kids[..MIDDLE + 1]), keys[MIDDLE],
                        Inner(false, n.last, keys[MIDDLE + 1..], kids[MIDDLE + 1..])), h, lo, hi, root, RecsOf(kids))
  {
    var t := keys[MIDDLE];
    KidsSplit(keys, kids, h - 1, lo, hi, MIDDLE);
    InnerWF(Inner(n.first, false, keys[..MIDDLE], kids[..MIDDLE + 1]), h, lo, End.Key(t), false);
    InnerWF(Inner(false, n.last, keys[MIDDLE + 1..], kids[MIDDLE + 1..]), h, End.Key(t), hi, false);
    RecsBefore(kids, MIDDLE + 1);
  }

  /** An interior node with one separator and kid more, or its two halves. */
  lemma InnerGrown(n: Node, h: nat, lo: End, hi: End, root: bool, keys: seq<Key>, kids: seq<Node>)
    requires n.Inner? && n.first == lo.Open? && n.last == hi.Open? && SizeOk(n, root) && h > 0
    requires |keys| == |n.keys| + 1 && KidsWF(keys, kids, h - 1, lo, hi) && SepsOk(keys, lo, hi)
    ensures |n.keys| < FANOUT ==>
      GrownOk(One(n.(keys := keys, kids := kids)), h, lo, hi, root, RecsOf(kids))
    ensures |n.keys| == FANOUT ==>
      GrownOk(Two(Inner(n.first, false, keys[..MIDDLE], kids[..MIDDLE + 1]), keys[MIDDLE],
                  Inner(false, n.last, keys[MIDDLE + 1..], kids[MIDDLE + 1..])), h, lo, hi, root, RecsOf(kids))
  {
    if |n.keys| < FANOUT {
      InnerWF(n.(keys := keys, kids := kids), h, lo, hi, root);
    } else {
      InnerHalves(n, h, lo, hi, root, keys, kids);
    }
  }

  /** What a grown kid does to its parent. */
  lemma AttachOk(n: Node, h: nat, lo: End, hi: End, root: bool, i: nat, g: Grown, rs: seq<Rec>)
    requires WF(n, h, lo, hi, root) && n.Inner? && i < |n.kids|
    requires GrownOk(g, h - 1, KidLo(n.keys, i, lo), KidHi(n.keys, i, hi), false, rs)
    ensures GrownOk(Attach(n, i, g), h, lo, hi, root, RecsOf(n.kids[..i]) + rs + RecsOf(n.kids[i + 1..]))
  {
    match g {
      case One(c) => AttachOne(n, h, lo, hi, root, i, c);
      case Two(l, s, r) => AttachTwo(n, h, lo, hi, root, i, l, s, r);
    }
  }

  lemma UpsertInKid(n: Node, h: nat, lo: End, hi: End, root: bool, k: Key, v: Value)
    requires WF(n, h, lo, hi, root) && n.Inner? && Above(lo, k) && Below(k, hi)
    ensures Above(KidLo(n.keys, KidIdx(n.keys, k), lo), k) && Below(k, KidHi(n.keys, KidIdx(n.keys, k), hi))
    ensures Upsert(Recs(n), k, v) == RecsOf(n.kids[..KidIdx(n.keys, k)])
      + Upsert(Recs(n.kids[KidIdx(n.keys, k)]), k, v) + RecsOf(n.kids[KidIdx(n.keys, k) + 1..])
  {
    var i := KidIdx(n.keys, k);
    var left, mid, right := RecsOf(n.kids[..i]), Recs(n.kids[i]), RecsOf(n.kids[i + 1..]);
    SidesOfKey(n, h, lo, hi, root, k);
    UpsertInMiddle(left, mid, right, k, v);
    RecsSplit(n.kids, i);
  }

  /** Putting a record keeps the B+-tree in order and upserts the sorted records. */
  lemma {:induction false} PutOk(n: Node, h: nat, lo: End, hi: End, root: bool, k: Key, v: Value)
    requires WF(n, h, lo, hi, root) && Above(lo, k) && Below(k, hi)
    ensures GrownOk(Put(n, h, lo, hi, root, k, v), h, lo, hi, root, Upsert(Recs(n), k, v))
    decreases h
  {
    if n.Leaf? {
      PutInLeafOk(n, lo, hi, root, k, v);
    } else {
      var i := KidIdx(n.keys, k);
      var lo', hi' := KidLo(n.keys, i, lo), KidHi(n.keys, i, hi);
      UpsertInKid(n, h, lo, hi, root, k, v);
      PutOk(n.kids[i], h - 1, lo', hi', false, k, v);
      AttachOk(n, h, lo, hi, root, i, Put(n.kids[i], h - 1, lo', hi', false, k, v), Upsert(Recs(n.kids[i]), k, v));
    }
  }

  // ---- the root ----

  /** The root after a put: a split root gets a new root above it. */
  function Rooted(g: Grown): Node {
    match g
    case One(n) => n
    case Two(l, s, r) => Inner(true, true, [s], [l, r])
  }

  function Taller(g: Grown): nat {
    if g.Two? then 1 else 0
  }

  lemma RootedOk(g: Grown, h: nat, rs: seq<Rec>)
    requires GrownOk(g, h, Open, Open, true, rs)
    ensures Tree(Rooted(g), h + Taller(g)) && Recs(Rooted(g)) == rs
  {
    match g {
      case One(n) =>
      case Two(l, s, r) =>
        assert KidsWF([s], [l, r], h, Open, Open) && SepsOk([s], Open, Open);
        InnerWF(Inner(true, true, [s], [l, r]), h + 1, Open, Open, true);
        assert [l, r][1..] == [r] && RecsOf([r]) == Recs(r) + [];
    }
  }

  /** The tree after `RL_PutRecord`: in order, and with exactly the one record put. */
  lemma PutRoot(root: Node, h: nat, k: Key, v: Value)
    requires Tree(root, h)
    ensures Tree(Rooted(Put(root, h, Open, Open, true, k, v)), h + Taller(Put(root, h, Open, Open, true, k, v)))
    ensures Recs(Rooted(Put(root, h, Open, Open, true, k, v))) == Upsert(Recs(root), k, v)
    ensures ToMap(Upsert(Recs(root), k, v)) == ToMap(Recs(root))[k := v]
  {
    var rs := Upsert(Recs(root), k, v);
    PutOk(root, h, Open, Open, true, k, v);
    RootedOk(Put(root, h, Open, Open, true, k, v), h, rs);
    RecsOrdered(root, h, Open, Open, true);
    UpsertIsUpdate(Recs(root), k, v);
  }

  // ---- any number of puts ----

  datatype Sized = Sized(root: Node, depth: nat)

  /** The tree and its depth after a put. */
  ghost function AfterPut(t: Sized, k: Key, v: Value): (r: Sized)
    requires Tree(t.root, t.depth)
    ensures Tree(r.root, r.depth)
    ensures Recs(r.root) == Upsert(Recs(t.root), k, v)
  {
    PutRoot(t.root, t.depth, k, v);
    Sized(Rooted(Put(t.root, t.depth, Open, Open, true, k, v)),
      t.depth + Taller(Put(t.root, t.depth, Open, Open, true, k, v)))
  }

  /** The same after these puts, from `RL_NewRelation` on. */
  ghost function Build(puts: seq<Rec>): (r: Sized)
    ensures Tree(r.root, r.depth)
  {
    if puts == [] then Sized(Leaf(true, true, [], []), 0)
    else AfterPut(Build(puts[..|puts| - 1]), puts[|puts| - 1].0, puts[|puts| - 1].1)
  }

  /** After any sequence of puts the tree holds the map that the puts make, each key once
      and in key order, and is no deeper than its size allows. */
  lemma {:induction false} BuildHolds(puts: seq<Rec>)
    ensures ToMap(Recs(Build(puts).root)) == ToMap(puts) && RecsSorted(Recs(Build(puts).root))
    ensures |Recs(Build(puts).root)| == |ToMap(puts)|
    ensures Build(puts).depth >= 1 ==> |ToMap(puts)| >= 2 * Pow8(Build(puts).depth)
  {
    var t := Build(puts);
    RecsOrdered(t.root, t.depth, Open, Open, true);
    CountIsKeys(Recs(t.root));
    DepthBound(t.root, t.depth);
    if puts != [] {
      var n := |puts| - 1;
      var before := Build(puts[..n]);
      BuildHolds(puts[..n]);
      RecsOrdered(before.root, before.depth, Open, Open, true);
      UpsertIsUpdate(Recs(before.root), puts[n].0, puts[n].1);
    }
  }

  // ---- how deep a tree can get ----

  function Pow8(n: nat): nat {
    if n == 0 then 1 else 8 * Pow8(n - 1)
  }

  lemma MulSucc(n: nat, c: nat)
    ensures (n + 1) * c == n * c + c
  {
  }

  lemma {:induction false} KidsHold(kids: seq<Node>, each: nat)
    requires forall i :: 0 <= i < |kids| ==> |Recs(kids[i])| >= each
    ensures |RecsOf(kids)| >= |kids| * each
  {
    if kids != [] {
      KidsHold(kids[1..], each);
      MulSucc(|kids| - 1, each);
    }
  }

  lemma {:induction false} HeightHolds(n: Node, h: nat, lo: End, hi: End)
    requires WF(n, h, lo, hi, false)
    ensures |Recs(n)| >= Pow8(h + 1)
    decreases h
  {
    if n.Inner? {
      forall i | 0 <= i < |n.kids| ensures |Recs(n.kids[i])| >= Pow8(h) {
        HeightHolds(n.kids[i], h - 1, KidLo(n.keys, i, lo), KidHi(n.keys, i, hi));
      }
      KidsHold(n.kids, Pow8(h));
      MulMono(8, |n.kids|, Pow8(h));
    }
  }

  /** A tree of depth `h` >= 1 holds at least 2 * 8^h records. */
  lemma RootHolds(root: Node, h: nat)
    requires Tree(root, h) && h >= 1
    ensures |Recs(root)| >= 2 * Pow8(h)
  {
    forall i | 0 <= i < |root.kids| ensures |Recs(root.kids[i])| >= Pow8(h) {
      HeightHolds(root.kids[i], h - 1, KidLo(root.keys, i, Open), KidHi(root.keys, i, Open));
    }
    KidsHold(root.kids, Pow8(h));
    Pow8Mono(h, h);
    MulMono(2, |root.kids|, Pow8(h));
  }

  lemma MulMono(a: nat, b: nat, c: nat)
    requires a <= b
    ensures a * c <= b * c
  {
  }

  /** With fewer than 2^61 records no level is beyond the cursor's 20 slots. */
  lemma DepthBound(root: Node, h: nat)
    requires Tree(root, h)
    ensures h >= 1 ==> |Recs(root)| >= 2 * Pow8(h)
    ensures |Recs(root)| < 0x2000_0000_0000_0000 ==> h < MAX_TREE_DEPTH
  {
    if h >= 1 { RootHolds(root, h); }
    if |Recs(root)| < 0x2000_0000_0000_0000 { DepthFits(root, h, |Recs(root)|); }
  }

  lemma DepthFits(root: Node, h: nat, count: nat)
    requires Tree(root, h) && |Recs(root)| <= count < 0x2000_0000_0000_0000
    ensures h < MAX_TREE_DEPTH
  {
    if h >= 20 {
      RootHolds(root, h);
      Pow8Mono(20, h);
      Pow8Of20();
    }
  }

  lemma Pow8Of20()
    ensures Pow8(20) == 0x1000_0000_0000_0000
  {
    assert Pow8(5) == 0x8000;
    assert Pow8(10) == 0x4000_0000;
    assert Pow8(15) == 0x2000_0000_0000;
  }

  lemma {:induction n} Pow8Mono(m: nat, n: nat)
    requires m <= n
    ensures Pow8(m) <= Pow8(n) && Pow8(n) > 0
  {
    if m < n { Pow8Mono(m, n - 1); } else if m > 0 { Pow8Mono(m - 1, n - 1); }
  }
}
