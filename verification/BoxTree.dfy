/** The search tree that the boxes of the locking BST form, as a value; the other two trees
    use it for their nodes. It is never stored: it is the ghost shape that memory is proved
    to have. */
module BoxTree {
  import opened AtomicMap

  type Box = nat

  /** The content of a box: `tree_t.t` is NULL, or points to a node of its own. */
  datatype Node = Node(key: Key, value: Value, left: Box, right: Box)
  datatype Content = Empty | Full(node: Node)
  type Heap = map<Box, Content>

  datatype Tree =
    | Leaf(box: Box)
    | Fork(box: Box, key: Key, value: Value, left: Tree, right: Tree)

  ghost function Boxes(t: Tree): set<Box> {
    match t
    case Leaf(b) => {b}
    case Fork(b, _, _, l, r) => {b} + Boxes(l) + Boxes(r)
  }

  ghost function Keys(t: Tree): set<Key> {
    match t
    case Leaf(_) => {}
    case Fork(_, k, _, l, r) => {k} + Keys(l) + Keys(r)
  }

  /** No box occurs twice. */
  ghost predicate Distinct(t: Tree) {
    match t
    case Leaf(_) => true
    case Fork(b, _, _, l, r) =>
      && b !in Boxes(l) && b !in Boxes(r) && Boxes(l) !! Boxes(r)
      && Distinct(l) && Distinct(r)
  }

  ghost predicate Sorted(t: Tree) {
    match t
    case Leaf(_) => true
    case Fork(_, k, _, l, r) =>
      && (forall x <- Keys(l) :: x < k) && (forall x <- Keys(r) :: k < x)
      && Sorted(l) && Sorted(r)
  }

  /** The heap holds exactly this tree at its boxes. */
  ghost predicate Rep(h: Heap, t: Tree) {
    match t
    case Leaf(b) => b in h && h[b] == Empty
    case Fork(b, k, v, l, r) =>
      b in h && h[b] == Full(Node(k, v, l.box, r.box)) && Rep(h, l) && Rep(h, r)
  }

  /** Box `b` is on the search path of `x`. */
  ghost predicate OnPath(t: Tree, b: Box, x: Key) {
    match t
    case Leaf(c) => b == c
    case Fork(c, k, _, l, r) =>
      b == c || (x < k && OnPath(l, b, x)) || (k < x && OnPath(r, b, x))
  }

  datatype Found = Missing | Found(value: Value)

  ghost function Get(t: Tree, x: Key): Found {
    match t
    case Leaf(_) => Missing
    case Fork(_, k, v, l, r) => if x < k then Get(l, x) else if k < x then Get(r, x) else Found(v)
  }

  /** The map that the tree stands for. */
  ghost function Contents(t: Tree): map<Key, Value> {
    map x | x in Keys(t) && Get(t, x).Found? :: Get(t, x).value
  }

  /** The subtree at a box on the search path of `x`. */
  ghost function At(t: Tree, x: Key, b: Box): Tree
    requires OnPath(t, b, x)
  {
    if b == t.box then t
    else if x < t.key then At(t.left, x, b)
    else At(t.right, x, b)
  }

  /** The tree with the subtree at that box replaced by `u`. */
  ghost function Replace(t: Tree, x: Key, b: Box, u: Tree): Tree
    requires OnPath(t, b, x)
  {
    if b == t.box then u
    else if x < t.key then t.(left := Replace(t.left, x, b, u))
    else t.(right := Replace(t.right, x, b, u))
  }

  lemma {:induction t} OnPathInBoxes(t: Tree, b: Box, x: Key)
    requires OnPath(t, b, x)
    ensures b in Boxes(t)
  {
  }

  lemma {:induction t} GetInKeys(t: Tree, x: Key)
    requires Get(t, x).Found?
    ensures x in Keys(t)
  {
  }

  lemma {:induction false} ContentsGet(t: Tree, x: Key)
    ensures x in Contents(t) <==> Get(t, x).Found?
    ensures x in Contents(t) ==> Contents(t)[x] == Get(t, x).value
  {
    if Get(t, x).Found? { GetInKeys(t, x); }
  }

  lemma {:induction t} RepBoxes(h: Heap, t: Tree)
    requires Rep(h, t)
    ensures Boxes(t) <= h.Keys
  {
  }

  /** The heap determines the tree below a box. */
  lemma {:induction false} RepUnique(h: Heap, t: Tree, t': Tree)
    requires Rep(h, t) && Rep(h, t') && t.box == t'.box
    ensures t == t'
  {
    if t.Fork? {
      RepUnique(h, t.left, t'.left);
      RepUnique(h, t.right, t'.right);
    }
  }

  lemma {:induction t} RepFrame(h: Heap, h': Heap, t: Tree)
    requires Rep(h, t)
    requires forall b <- Boxes(t) :: b in h && b in h' && h'[b] == h[b]
    ensures Rep(h', t)
  {
  }

  lemma {:induction false} AtFacts(t: Tree, x: Key, b: Box, h: Heap)
    requires OnPath(t, b, x) && Distinct(t) && Sorted(t) && Rep(h, t)
    ensures At(t, x, b).box == b
    ensures Distinct(At(t, x, b)) && Sorted(At(t, x, b)) && Rep(h, At(t, x, b))
    ensures Boxes(At(t, x, b)) <= Boxes(t) && Keys(At(t, x, b)) <= Keys(t)
  {
    if b != t.box {
      AtFacts(if x < t.key then t.left else t.right, x, b, h);
    }
  }

  /** A box on the search path of both `x` and `y` carries the same subtree for both. */
  lemma {:induction false} AtShared(t: Tree, x: Key, y: Key, b: Box)
    requires OnPath(t, b, x) && OnPath(t, b, y) && Distinct(t)
    ensures At(t, x, b) == At(t, y, b)
    ensures Get(t, y) == Get(At(t, x, b), y)
  {
    if b != t.box {
      if x < t.key { OnPathInBoxes(t.left, b, x); } else { OnPathInBoxes(t.right, b, x); }
      if y < t.key { OnPathInBoxes(t.left, b, y); } else { OnPathInBoxes(t.right, b, y); }
      AtShared(if x < t.key then t.left else t.right, x, y, b);
    }
  }

  /** Replacing a subtree keeps the boxes apart. */
  lemma {:induction false} ReplaceBoxes(t: Tree, x: Key, b: Box, u: Tree)
    requires OnPath(t, b, x) && Distinct(t) && u.box == b && Distinct(u)
    requires Boxes(u) !! (Boxes(t) - Boxes(At(t, x, b)))
    ensures var t' := Replace(t, x, b, u);
      && t'.box == t.box && Distinct(t')
      && Boxes(t') == Boxes(t) - Boxes(At(t, x, b)) + Boxes(u)
      && Boxes(At(t, x, b)) <= Boxes(t)
  {
    if b != t.box {
      var side := if x < t.key then t.left else t.right;
      AtBoxes(side, x, b);
      ReplaceBoxes(side, x, b, u);
    }
  }

  lemma {:induction false} AtBoxes(t: Tree, x: Key, b: Box)
    requires OnPath(t, b, x)
    ensures Boxes(At(t, x, b)) <= Boxes(t) && Keys(At(t, x, b)) <= Keys(t) && At(t, x, b).box == b
  {
    if b != t.box { AtBoxes(if x < t.key then t.left else t.right, x, b); }
  }

  /** Replacing a subtree keeps the key order. */
  lemma {:induction false} ReplaceSorted(t: Tree, x: Key, b: Box, u: Tree)
    requires OnPath(t, b, x) && Sorted(t) && Sorted(u)
    requires Keys(u) <= Keys(At(t, x, b)) + {x}
    ensures Sorted(Replace(t, x, b, u)) && Keys(Replace(t, x, b, u)) <= Keys(t) + {x}
  {
    if b != t.box {
      var side := if x < t.key then t.left else t.right;
      AtBoxes(side, x, b);
      ReplaceSorted(side, x, b, u);
    }
  }

  /** Replacing a subtree: the changed heap holds the changed tree. */
  lemma {:induction false} ReplaceRep(t: Tree, x: Key, b: Box, u: Tree, h: Heap, h': Heap)
    requires OnPath(t, b, x) && Distinct(t) && Rep(h, t) && u.box == b && Rep(h', u)
    requires forall c <- Boxes(t) :: c !in Boxes(At(t, x, b)) ==> c in h && c in h' && h'[c] == h[c]
    ensures Rep(h', Replace(t, x, b, u)) && Replace(t, x, b, u).box == t.box
  {
    if b != t.box {
      var side, other := if x < t.key then t.left else t.right, if x < t.key then t.right else t.left;
      AtBoxes(side, x, b);
      RepFrame(h, h', other);
      ReplaceRep(side, x, b, u, h, h');
    }
  }

  /** Replacing a subtree: a search that does not reach the box sees no change, and
      one that reaches it goes on in the new subtree. */
  lemma {:induction false} ReplaceSearch(t: Tree, x: Key, b: Box, u: Tree, y: Key)
    requires OnPath(t, b, x) && Distinct(t) && u.box == b
    ensures Get(Replace(t, x, b, u), y) == if OnPath(t, b, y) then Get(u, y) else Get(t, y)
  {
    if b != t.box {
      var side := if x < t.key then t.left else t.right;
      OnPathInBoxes(side, b, x);
      if y < t.key && OnPath(t.left, b, y) { OnPathInBoxes(t.left, b, y); }
      if t.key < y && OnPath(t.right, b, y) { OnPathInBoxes(t.right, b, y); }
      ReplaceSearch(side, x, b, u, y);
    }
  }

  /** Replacing a subtree: a box stays on the search path of `y` when it does so
      inside the replaced part. */
  lemma {:induction false} ReplacePath(t: Tree, x: Key, b: Box, u: Tree, c: Box, y: Key)
    requires OnPath(t, b, x) && Distinct(t) && u.box == b
    requires OnPath(t, c, y)
    requires OnPath(At(t, x, b), c, y) ==> OnPath(u, c, y)
    ensures OnPath(Replace(t, x, b, u), c, y)
  {
    if b != t.box && c != t.box {
      var side := if x < t.key then t.left else t.right;
      if (y < t.key) == (x < t.key) {
        ReplacePath(side, x, b, u, c, y);
      }
    }
  }

  /** A box inside the replacement is on the path of any key whose search reaches it. */
  lemma {:induction false} ReplaceInner(t: Tree, x: Key, b: Box, u: Tree, c: Box)
    requires OnPath(t, b, x) && u.box == b && OnPath(u, c, x)
    ensures OnPath(Replace(t, x, b, u), c, x)
  {
    if b != t.box {
      ReplaceInner(if x < t.key then t.left else t.right, x, b, u, c);
    }
  }

  lemma BoxInBoxes(t: Tree)
    ensures t.box in Boxes(t)
  {
  }

  lemma {:induction false} AtBelow(t: Tree, x: Key, b: Box, c: Box)
    requires OnPath(t, b, x) && OnPath(At(t, x, b), c, x)
    ensures OnPath(t, c, x)
  {
    if b != t.box { AtBelow(if x < t.key then t.left else t.right, x, b, c); }
  }

  /** The abstract map after a replacement, when only key `x` may be affected. */
  lemma EditContents(tr: Tree, x: Key, b: Box, u: Tree, op: Op)
    requires OnPath(tr, b, x) && Distinct(tr) && Sorted(tr) && u.box == b && op.key == x
    requires forall y :: y != x && OnPath(tr, b, y) ==> Get(u, y) == Get(At(tr, x, b), y)
    requires match op
      case Insert(_, v) => Get(u, x) == Found(v)
      case Delete(_) => Get(u, x) == Missing
      case Lookup(_) => false
    ensures Contents(Replace(tr, x, b, u)) == Effect(Contents(tr), op)
  {
    var m, m' := Contents(tr), Contents(Replace(tr, x, b, u));
    forall y ensures (y in m' <==> y in Effect(m, op)) && (y in m' ==> m'[y] == Effect(m, op)[y]) {
      ContentsGet(tr, y);
      ContentsGet(Replace(tr, x, b, u), y);
      ReplaceSearch(tr, x, b, u, y);
      if OnPath(tr, b, y) { AtShared(tr, x, y, b); }
    }
  }

  /** ... and when no key is. */
  lemma EditNothing(tr: Tree, x: Key, b: Box, u: Tree)
    requires OnPath(tr, b, x) && Distinct(tr) && u.box == b
    requires forall y :: Get(u, y) == Get(At(tr, x, b), y)
    ensures Contents(Replace(tr, x, b, u)) == Contents(tr)
  {
    var m, m' := Contents(tr), Contents(Replace(tr, x, b, u));
    forall y ensures (y in m' <==> y in m) && (y in m' ==> m'[y] == m[y]) {
      ContentsGet(tr, y);
      ContentsGet(Replace(tr, x, b, u), y);
      ReplaceSearch(tr, x, b, u, y);
      if OnPath(tr, b, y) { AtShared(tr, x, y, b); }
    }
  }

  // ---- heights ----

  ghost function Height(t: Tree): nat {
    match t
    case Leaf(_) => 0
    case Fork(_, _, _, l, r) => 1 + if Height(l) < Height(r) then Height(r) else Height(l)
  }

  /** The height of the subtree at a box on the search path of `x`. */
  ghost function Below(t: Tree, x: Key, b: Box): nat {
    if OnPath(t, b, x) then Height(At(t, x, b)) else 0
  }

  lemma {:induction false} AtAt(t: Tree, x: Key, b: Box, c: Box)
    requires OnPath(t, b, x) && OnPath(At(t, x, b), c, x) && Distinct(t)
    ensures OnPath(t, c, x) && At(t, x, c) == At(At(t, x, b), x, c)
  {
    AtBelow(t, x, b, c);
    if b != t.box {
      var side := if x < t.key then t.left else t.right;
      AtAt(side, x, b, c);
      OnPathInBoxes(side, c, x);
    }
  }

  lemma {:induction false} AtReplaced(t: Tree, x: Key, b: Box, u: Tree)
    requires OnPath(t, b, x) && u.box == b
    ensures OnPath(Replace(t, x, b, u), b, x) && At(Replace(t, x, b, u), x, b) == u
  {
    if b != t.box { AtReplaced(if x < t.key then t.left else t.right, x, b, u); }
  }

  lemma {:induction false} ReplaceHeight(t: Tree, x: Key, b: Box, u: Tree, d: nat)
    requires OnPath(t, b, x) && Height(u) <= Height(At(t, x, b)) + d
    ensures Height(Replace(t, x, b, u)) <= Height(t) + d
  {
    if b != t.box { ReplaceHeight(if x < t.key then t.left else t.right, x, b, u, d); }
  }

  /** Replacing a subtree raises no subtree by more than the replaced part is raised. */
  lemma {:induction false} ReplaceBelow(t: Tree, x: Key, b: Box, u: Tree, y: Key, c: Box, d: nat)
    requires OnPath(t, b, x) && u.box == b && OnPath(t, c, y)
    requires Height(u) <= Height(At(t, x, b)) + d
    requires OnPath(At(t, x, b), c, y) ==>
      OnPath(u, c, y) && Height(At(u, y, c)) <= Height(At(At(t, x, b), y, c)) + d
    ensures OnPath(Replace(t, x, b, u), c, y)
    ensures Height(At(Replace(t, x, b, u), y, c)) <= Height(At(t, y, c)) + d
  {
    if b != t.box {
      if c == t.box {
        ReplaceHeight(t, x, b, u, d);
      } else if (y < t.key) == (x < t.key) {
        ReplaceBelow(if x < t.key then t.left else t.right, x, b, u, y, c, d);
      }
    }
  }

  // ---- key intervals ----

  datatype Bound = Unbounded | Strict(key: Key)
  datatype Interval = Interval(lo: Bound, hi: Bound) {
    predicate Has(x: Key) {
      (lo.Unbounded? || lo.key < x) && (hi.Unbounded? || x < hi.key)
    }
  }

  /** The open interval of keys between the ancestors' keys of a box. */
  ghost function RangeIn(t: Tree, b: Box, i: Interval): Interval
    requires b in Boxes(t)
  {
    if b == t.box then i
    else if b in Boxes(t.left) then RangeIn(t.left, b, i.(hi := Strict(t.key)))
    else RangeIn(t.right, b, i.(lo := Strict(t.key)))
  }

  ghost function Range(t: Tree, b: Box): Interval
    requires b in Boxes(t)
  {
    RangeIn(t, b, Interval(Unbounded, Unbounded))
  }

  /** A box is on the search path of exactly the keys in its interval. */
  lemma {:induction false} PathIsRange(t: Tree, b: Box, i: Interval, x: Key)
    requires b in Boxes(t) && Distinct(t) && Sorted(t)
    requires forall k <- Keys(t) :: i.Has(k)
    ensures RangeIn(t, b, i).Has(x) <==> i.Has(x) && OnPath(t, b, x)
  {
    if b != t.box {
      assert Keys(t) == {t.key} + Keys(t.left) + Keys(t.right);
      if b in Boxes(t.left) {
        if OnPath(t.right, b, x) { OnPathInBoxes(t.right, b, x); }
        PathIsRange(t.left, b, i.(hi := Strict(t.key)), x);
      } else {
        if OnPath(t.left, b, x) { OnPathInBoxes(t.left, b, x); }
        PathIsRange(t.right, b, i.(lo := Strict(t.key)), x);
      }
    }
  }

  lemma {:induction false} RangeInvariant(t: Tree, b: Box, x: Key)
    requires b in Boxes(t) && Distinct(t) && Sorted(t)
    ensures Range(t, b).Has(x) <==> OnPath(t, b, x)
  {
    PathIsRange(t, b, Interval(Unbounded, Unbounded), x);
  }

  // ---- the four edits that the code makes below a locked box ----

  /** `turn_left`: box `b` over `q` becomes box `b` over `q` with contents swapped. */
  ghost function TurnLeft(t: Tree): Tree
    requires t.Fork? && t.right.Fork?
  {
    var q := t.right;
    Fork(t.box, q.key, q.value, Fork(q.box, t.key, t.value, t.left, q.left), q.right)
  }

  /** The final unlink: the content of the left child moves up into box `b`. */
  ghost function PullLeft(t: Tree): Tree
    requires t.Fork?
  {
    t.left.(box := t.box)
  }

  lemma TurnLeftShape(t: Tree)
    requires t.Fork? && t.right.Fork? && Distinct(t) && Sorted(t)
    ensures var u := TurnLeft(t);
      Distinct(u) && Sorted(u) && Boxes(u) == Boxes(t) && Keys(u) == Keys(t) && u.box == t.box
  {
    RightKey(t);
    assert Keys(t.right) == {t.right.key} + Keys(t.right.left) + Keys(t.right.right);
    var p := Fork(t.right.box, t.key, t.value, t.left, t.right.left);
    assert Sorted(p) && Keys(p) == {t.key} + Keys(t.left) + Keys(t.right.left);
    assert TurnLeft(t).left == p;
  }

  lemma TurnLeftSearch(t: Tree)
    requires t.Fork? && t.right.Fork? && Sorted(t)
    ensures forall y :: Get(TurnLeft(t), y) == Get(t, y)
    ensures forall c, y {:trigger OnPath(t, c, y)} ::
      OnPath(t, c, y) && c != t.right.box ==> OnPath(TurnLeft(t), c, y)
  {
    RightKey(t);
  }

  lemma RightKey(t: Tree)
    requires t.Fork? && t.right.Fork? && Sorted(t)
    ensures t.key < t.right.key
  {
    assert t.right.key in Keys(t.right);
  }

  lemma PullLeftShape(t: Tree)
    requires t.Fork? && t.right.Leaf? && Distinct(t) && Sorted(t)
    ensures var u := PullLeft(t);
      && Distinct(u) && Sorted(u) && u.box == t.box
      && Boxes(u) == Boxes(t) - {t.left.box, t.right.box} && Keys(u) == Keys(t) - {t.key}
  {
    if t.left.Fork? {
      assert t.left.box !in Boxes(t.left.left) + Boxes(t.left.right);
    }
  }

  lemma PullLeftSearch(t: Tree)
    requires t.Fork? && t.right.Leaf? && Sorted(t)
    ensures forall y :: Get(PullLeft(t), y) == (if y == t.key then Missing else Get(t, y))
    ensures forall c, y {:trigger OnPath(t, c, y)} ::
      OnPath(t, c, y) && c != t.left.box && c != t.right.box ==> OnPath(PullLeft(t), c, y)
  {
    forall y ensures Get(PullLeft(t), y) == (if y == t.key then Missing else Get(t, y)) {
      if Get(t.left, y).Found? { GetInKeys(t.left, y); }
    }
  }
}
