/** The sequential tree below the global lock, rewritten in place through pointers to
    links: memory is a map from node addresses to nodes, so that a node written, moved or
    freed through one pointer changes for all others too. */
module SequentialTree {
  import opened AtomicMap
  import T = BoxTree

  type Ptr = nat

  datatype Cell = Cell(key: Key, value: Value, left: Ptr, right: Ptr)
  type Heap = map<Ptr, Cell>

  /** The address of a link: the root variable, or a field of a node. */
  datatype Link = Root | LeftOf(p: Ptr) | RightOf(p: Ptr)

  /** The tree that the nodes form: a search tree as that of the boxes, with node addresses
      for boxes and NULL at the leaves. */
  type Shape = T.Tree

  ghost function Ptrs(s: Shape): set<Ptr> {
    match s
    case Leaf(_) => {}
    case Fork(p, _, _, l, r) => {p} + Ptrs(l) + Ptrs(r)
  }

  /** No node occurs twice. */
  ghost predicate Distinct(s: Shape) {
    match s
    case Leaf(_) => true
    case Fork(p, _, _, l, r) =>
      p !in Ptrs(l) && p !in Ptrs(r) && Ptrs(l) !! Ptrs(r) && Distinct(l) && Distinct(r)
  }

  /** The link with the value `p` leads to exactly this tree. */
  ghost predicate Rep(h: Heap, p: Ptr, s: Shape)
    decreases s
  {
    match s
    case Leaf(b) => p == b == NULL
    case Fork(q, k, v, l, r) =>
      && p == q != NULL && q in h && h[q].key == k && h[q].value == v
      && Rep(h, h[q].left, l) && Rep(h, h[q].right, r)
  }

  // ---- places on the search path of a key ----

  /** `n` steps down the search path of `x`. */
  ghost predicate Deep(s: Shape, x: Key, n: nat)
    decreases n
  {
    n == 0 || (s.Fork? && s.key != x && Deep(Down(s, x), x, n - 1))
  }

  ghost function Down(s: Shape, x: Key): Shape
    requires s.Fork?
  {
    if x < s.key then s.left else s.right
  }

  ghost function Sub(s: Shape, x: Key, n: nat): Shape
    requires Deep(s, x, n)
    decreases n
  {
    if n == 0 then s else Sub(Down(s, x), x, n - 1)
  }

  ghost function Replace(s: Shape, x: Key, n: nat, u: Shape): Shape
    requires Deep(s, x, n)
    decreases n
  {
    if n == 0 then u
    else if x < s.key then s.(left := Replace(s.left, x, n - 1, u))
    else s.(right := Replace(s.right, x, n - 1, u))
  }

  /** The link there, where `top` is the link to the whole tree. */
  ghost function LinkAt(s: Shape, x: Key, n: nat, top: Link): Link
    requires Deep(s, x, n)
    decreases n
  {
    if n == 0 then top
    else LinkAt(Down(s, x), x, n - 1, if x < s.key then LeftOf(s.box) else RightOf(s.box))
  }

  lemma {:induction false} Further(s: Shape, x: Key, n: nat, top: Link)
    requires Deep(s, x, n) && Sub(s, x, n).Fork? && Sub(s, x, n).key != x
    ensures Deep(s, x, n + 1) && Sub(s, x, n + 1) == Down(Sub(s, x, n), x)
    ensures LinkAt(s, x, n + 1, top) ==
      if x < Sub(s, x, n).key then LeftOf(Sub(s, x, n).box) else RightOf(Sub(s, x, n).box)
    decreases n
  {
    if n > 0 {
      Further(Down(s, x), x, n - 1, if x < s.key then LeftOf(s.box) else RightOf(s.box));
    }
  }

  // ---- reading and writing a link ----

  predicate LinkOk(h: Heap, t: Link) { t.Root? || t.p in h }

  function Load(h: Heap, root: Ptr, t: Link): Ptr
    requires LinkOk(h, t)
  {
    match t case Root => root case LeftOf(p) => h[p].left case RightOf(p) => h[p].right
  }

  function StoreHeap(h: Heap, t: Link, v: Ptr): Heap
    requires LinkOk(h, t)
  {
    match t
    case Root => h
    case LeftOf(p) => h[p := h[p].(left := v)]
    case RightOf(p) => h[p := h[p].(right := v)]
  }

  /** The tree under a link on the search path is the one that it holds. */
  lemma {:induction false} RepSub(h: Heap, root: Ptr, s: Shape, x: Key, n: nat, top: Link, w: Ptr)
    requires Deep(s, x, n) && Rep(h, w, s) && LinkOk(h, top) && Load(h, root, top) == w
    ensures var t := LinkAt(s, x, n, top);
      && LinkOk(h, t) && Rep(h, Load(h, root, t), Sub(s, x, n))
      && (if n == 0 then t == top else !t.Root? && t.p in Ptrs(s) && (Distinct(s) ==> t.p !in Ptrs(Sub(s, x, n))))
    ensures Ptrs(Sub(s, x, n)) <= Ptrs(s)
    decreases n
  {
    if n > 0 {
      var next := if x < s.key then LeftOf(s.box) else RightOf(s.box);
      RepSub(h, root, Down(s, x), x, n - 1, next, Load(h, root, next));
    }
  }

  lemma {:induction false} Frame(h: Heap, h': Heap, p: Ptr, s: Shape)
    requires Rep(h, p, s)
    requires forall q <- Ptrs(s) :: q in h' && (q in h ==> h'[q] == h[q])
    ensures Rep(h', p, s)
    decreases s
  {
    if s.Fork? {
      Frame(h, h', h[p].left, s.left);
      Frame(h, h', h[p].right, s.right);
    }
  }

  /** Memory after a change below a link on the search path: the nodes outside the changed
      subtree are as before, except that the link holds `v`, which leads to `u`. */
  lemma {:induction false} RepReplace(h: Heap, h': Heap, root: Ptr, s: Shape, x: Key, n: nat, top: Link, w: Ptr, u: Shape, v: Ptr)
    requires Deep(s, x, n) && Distinct(s) && Rep(h, w, s) && LinkOk(h, top) && Load(h, root, top) == w
    requires LinkOk(h, LinkAt(s, x, n, top)) && Rep(h', v, u)
    requires forall q <- Ptrs(s) - Ptrs(Sub(s, x, n)) :: q in h && q in h' && h'[q] == StoreHeap(h, LinkAt(s, x, n, top), v)[q]
    ensures Rep(h', if n == 0 then v else w, Replace(s, x, n, u))
    decreases n
  {
    if n > 0 {
      var next := if x < s.key then LeftOf(s.box) else RightOf(s.box);
      var down := Down(s, x);
      RepSub(h, root, down, x, n - 1, next, Load(h, root, next));
      RepReplace(h, h', root, down, x, n - 1, next, Load(h, root, next), u, v);
      if x < s.key { Frame(h, h', h[s.box].right, s.right); } else { Frame(h, h', h[s.box].left, s.left); }
    }
  }

  // ---- the effect of a change on the tree ----

  lemma {:induction false} ReplaceDistinct(s: Shape, x: Key, n: nat, u: Shape)
    requires Deep(s, x, n) && Distinct(s) && Distinct(u) && Ptrs(u) !! Ptrs(s) - Ptrs(Sub(s, x, n))
    ensures Distinct(Replace(s, x, n, u)) && Ptrs(Sub(s, x, n)) <= Ptrs(s)
    ensures Ptrs(Replace(s, x, n, u)) == Ptrs(s) - Ptrs(Sub(s, x, n)) + Ptrs(u)
    decreases n
  {
    if n > 0 { ReplaceDistinct(Down(s, x), x, n - 1, u); }
  }

  lemma {:induction false} ReplaceSorted(s: Shape, x: Key, n: nat, u: Shape)
    requires Deep(s, x, n) && T.Sorted(s) && T.Sorted(u) && T.Keys(u) <= T.Keys(Sub(s, x, n)) + {x}
    ensures T.Sorted(Replace(s, x, n, u)) && T.Keys(Replace(s, x, n, u)) <= T.Keys(s) + {x}
    decreases n
  {
    if n > 0 { ReplaceSorted(Down(s, x), x, n - 1, u); }
  }

  lemma ReplaceFit(s: Shape, x: Key, n: nat, u: Shape)
    requires Deep(s, x, n) && Distinct(s) && T.Sorted(s) && Distinct(u) && T.Sorted(u)
    requires T.Keys(u) <= T.Keys(Sub(s, x, n)) + {x} && Ptrs(u) !! Ptrs(s) - Ptrs(Sub(s, x, n))
    ensures Distinct(Replace(s, x, n, u)) && T.Sorted(Replace(s, x, n, u))
    ensures Ptrs(Sub(s, x, n)) <= Ptrs(s) && Ptrs(Replace(s, x, n, u)) == Ptrs(s) - Ptrs(Sub(s, x, n)) + Ptrs(u)
  {
    ReplaceDistinct(s, x, n, u);
    ReplaceSorted(s, x, n, u);
  }

  lemma {:induction false} GetReplace(s: Shape, x: Key, n: nat, u: Shape, y: Key)
    requires Deep(s, x, n) && (y != x ==> T.Get(u, y) == T.Get(Sub(s, x, n), y))
    ensures T.Get(Replace(s, x, n, u), y) == if y == x then T.Get(u, x) else T.Get(s, y)
    decreases n
  {
    if n > 0 && (y < s.key <==> x < s.key) && y != s.key {
      GetReplace(Down(s, x), x, n - 1, u, y);
    }
  }

  ghost function Edited(m: map<Key, Value>, x: Key, f: T.Found): map<Key, Value> {
    match f case Missing => m - {x} case Found(v) => m[x := v]
  }

  lemma ContentsReplace(s: Shape, x: Key, n: nat, u: Shape)
    requires Deep(s, x, n) && forall y | y != x :: T.Get(u, y) == T.Get(Sub(s, x, n), y)
    ensures T.Contents(Replace(s, x, n, u)) == Edited(T.Contents(s), x, T.Get(u, x))
  {
    var s', m := Replace(s, x, n, u), Edited(T.Contents(s), x, T.Get(u, x));
    forall y ensures (y in T.Contents(s') <==> y in m) && (y in m ==> T.Contents(s')[y] == m[y]) {
      GetReplace(s, x, n, u, y);
      T.ContentsGet(s, y);
      T.ContentsGet(s', y);
    }
  }

  lemma {:induction false} GetSub(s: Shape, x: Key, n: nat)
    requires Deep(s, x, n)
    ensures T.Get(s, x) == T.Get(Sub(s, x, n), x)
    decreases n
  {
    if n > 0 { GetSub(Down(s, x), x, n - 1); }
  }

  lemma {:induction false} SubFit(s: Shape, x: Key, n: nat)
    requires Deep(s, x, n) && Distinct(s) && T.Sorted(s)
    ensures Distinct(Sub(s, x, n)) && T.Sorted(Sub(s, x, n))
    decreases n
  {
    if n > 0 { SubFit(Down(s, x), x, n - 1); }
  }

  // ---- the rotation and the unlinking ----

  ghost predicate CanTurn(s: Shape) { s.Fork? && s.right.Fork? }

  ghost function Turned(s: Shape): Shape
    requires CanTurn(s)
  {
    s.right.(left := s.(right := s.right.left))
  }

  lemma TurnedFit(s: Shape)
    requires CanTurn(s) && Distinct(s) && T.Sorted(s)
    ensures Distinct(Turned(s)) && T.Sorted(Turned(s)) && T.Keys(Turned(s)) == T.Keys(s) && Ptrs(Turned(s)) == Ptrs(s)
    ensures forall y :: T.Get(Turned(s), y) == T.Get(s, y)
  {
    T.RightKey(s);
    assert T.Keys(s.right) == {s.right.key} + T.Keys(s.right.left) + T.Keys(s.right.right);
    var p := s.(right := s.right.left);
    assert T.Sorted(p) && T.Keys(p) == {s.key} + T.Keys(s.left) + T.Keys(s.right.left);
    assert Turned(s).left == p;
  }

  /** A rotation anywhere keeps the order, the nodes and the map. */
  lemma TurnKeeps(s: Shape, x: Key, n: nat)
    requires Deep(s, x, n) && Distinct(s) && T.Sorted(s) && CanTurn(Sub(s, x, n))
    ensures var s' := Replace(s, x, n, Turned(Sub(s, x, n)));
      Distinct(s') && T.Sorted(s') && Ptrs(s') == Ptrs(s) && T.Contents(s') == T.Contents(s)
  {
    var sub := Sub(s, x, n);
    SubFit(s, x, n);
    TurnedFit(sub);
    ReplaceFit(s, x, n, Turned(sub));
    ContentsReplace(s, x, n, Turned(sub));
    GetSub(s, x, n);
    T.ContentsGet(s, x);
  }

  lemma UnlinkedFit(s: Shape)
    requires s.Fork? && s.right.Leaf? && Distinct(s) && T.Sorted(s)
    ensures T.Get(s.left, s.key).Missing? && forall y | y != s.key :: T.Get(s.left, y) == T.Get(s, y)
  {
    forall y | y >= s.key ensures T.Get(s.left, y).Missing? {
      if T.Get(s.left, y).Found? { T.GetInKeys(s.left, y); }
    }
  }

  class TreeBox {
    var root: Ptr
    var heap: Heap
    ghost var shape: Shape

    ghost predicate Valid()
      reads this
    {
      Rep(heap, root, shape) && Distinct(shape) && T.Sorted(shape) && heap.Keys == Ptrs(shape)
    }

    constructor ()
      ensures Valid() && T.Contents(shape) == map[]
    {
      root, heap, shape := NULL, map[], T.Leaf(NULL);
    }

    method Store(t: Link, v: Ptr)
      requires LinkOk(heap, t)
      modifies this`root, this`heap
      ensures heap == StoreHeap(old(heap), t, v) && root == if t.Root? then v else old(root)
    {
      match t
      case Root => root := v;
      case LeftOf(p) => heap := heap[p := heap[p].(left := v)];
      case RightOf(p) => heap := heap[p := heap[p].(right := v)];
    }

    /** `insert`; `room` is what `surely_malloc` returns if it is called. */
    method Insert(x: Key, value: Value, room: Ptr)
      requires Valid() && room != NULL && room !in heap
      modifies this
      ensures Valid() && T.Contents(shape) == old(T.Contents(shape))[x := value]
    {
      var t, n: nat := Root, 0;
      while true
        invariant Valid() && heap == old(heap) && root == old(root) && shape == old(shape)
        invariant Deep(shape, x, n) && t == LinkAt(shape, x, n, Root)
        decreases Sub(shape, x, n)
      {
        RepSub(heap, root, shape, x, n, Root, root);
        var p := Load(heap, root, t);
        if p == NULL {
          AddNode(t, x, value, room, n);
          return;
        }
        var y := heap[p].key;
        if x == y {
          Overwrite(p, t, x, value, n);
          return;
        }
        Further(shape, x, n, Root);
        t := if x < y then LeftOf(p) else RightOf(p);
        n := n + 1;
      }
    }

    /** A new node under the empty link at the end of the search. */
    method AddNode(t: Link, x: Key, value: Value, room: Ptr, ghost n: nat)
      requires Valid() && room != NULL && room !in heap
      requires Deep(shape, x, n) && t == LinkAt(shape, x, n, Root) && Sub(shape, x, n).Leaf?
      modifies this
      ensures Valid() && T.Contents(shape) == old(T.Contents(shape))[x := value]
    {
      ghost var s, h, r, u := shape, heap, root, T.Fork(room, x, value, T.Leaf(NULL), T.Leaf(NULL));
      RepSub(h, r, s, x, n, Root, r);
      heap := heap[room := Cell(x, value, NULL, NULL)];
      Store(t, room);
      RepReplace(h, heap, r, s, x, n, Root, r, u, room);
      ReplaceFit(s, x, n, u);
      ContentsReplace(s, x, n, u);
      shape := Replace(s, x, n, u);
    }

    method Overwrite(p: Ptr, ghost t: Link, x: Key, value: Value, ghost n: nat)
      requires Valid() && p in heap && heap[p].key == x
      requires Deep(shape, x, n) && Sub(shape, x, n).Fork? && t == LinkAt(shape, x, n, Root) && LinkOk(heap, t) && p == Load(heap, root, t)
      modifies this
      ensures Valid() && T.Contents(shape) == old(T.Contents(shape))[x := value]
    {
      ghost var s, h, r := shape, heap, root;
      RepSub(h, r, s, x, n, Root, r);
      SubFit(s, x, n);
      ghost var sub := Sub(s, x, n);
      ghost var u := sub.(value := value);
      heap := heap[p := heap[p].(value := value)];
      Frame(h, heap, h[p].left, sub.left);
      Frame(h, heap, h[p].right, sub.right);
      RepReplace(h, heap, r, s, x, n, Root, r, u, p);
      ReplaceFit(s, x, n, u);
      ContentsReplace(s, x, n, u);
      shape := Replace(s, x, n, u);
    }

    /** `turn_left`: the right child `q` takes the place of `p` at the link, and the tree
        stands for the same map. */
    method TurnLeft(t: Link, p: Ptr, q: Ptr, ghost x: Key, ghost n: nat)
      requires Valid() && Deep(shape, x, n) && t == LinkAt(shape, x, n, Root) && CanTurn(Sub(shape, x, n))
      requires p == Sub(shape, x, n).box && q == Sub(shape, x, n).right.box && p in heap && q in heap
      modifies this
      ensures Valid() && T.Contents(shape) == old(T.Contents(shape)) && heap.Keys == old(heap.Keys)
      ensures shape == Replace(old(shape), x, n, Turned(Sub(old(shape), x, n)))
    {
      ghost var s, h, r, sub := shape, heap, root, Sub(shape, x, n);
      RepSub(h, r, s, x, n, Root, r);
      SubFit(s, x, n);
      var mid := heap[q].left;
      heap := heap[p := heap[p].(right := mid)];
      heap := heap[q := heap[q].(left := p)];
      Store(t, q);
      TurnedRep(h, heap, sub);
      RepReplace(h, heap, r, s, x, n, Root, r, Turned(sub), q);
      TurnKeeps(s, x, n);
      shape := Replace(s, x, n, Turned(sub));
    }

    /** `pushdown_left`: rotates the node down to the left until it has no right child,
        then its left child takes its place and the node is freed. Each rotation leaves it
        a smaller right subtree. */
    method PushdownLeft(t0: Link, ghost x: Key, ghost n0: nat)
      requires Valid() && Deep(shape, x, n0) && t0 == LinkAt(shape, x, n0, Root)
      requires Sub(shape, x, n0).Fork? && Sub(shape, x, n0).key == x
      modifies this
      ensures Valid() && T.Contents(shape) == old(T.Contents(shape)) - {x}
      ensures heap.Keys == old(heap.Keys - {Sub(shape, x, n0).box})
    {
      var t := t0;
      ghost var n := n0;
      while true
        invariant Valid() && Deep(shape, x, n) && t == LinkAt(shape, x, n, Root)
        invariant Sub(shape, x, n).Fork? && Sub(shape, x, n).key == x
        invariant Sub(shape, x, n).box == old(Sub(shape, x, n0).box)
        invariant T.Contents(shape) == old(T.Contents(shape)) && heap.Keys == old(heap.Keys)
        decreases Sub(shape, x, n).right
      {
        RepSub(heap, root, shape, x, n, Root, root);
        var p := Load(heap, root, t);
        var q := heap[p].right;
        if q == NULL {
          Unlink(t, p, x, n);
          return;
        }
        SubFit(shape, x, n);
        AfterTurn(shape, x, n, Root);
        TurnLeft(t, p, q, x, n);
        t := LeftOf(q);
        n := n + 1;
      }
    }

    method Unlink(t: Link, p: Ptr, ghost x: Key, ghost n: nat)
      requires Valid() && Deep(shape, x, n) && t == LinkAt(shape, x, n, Root)
      requires Sub(shape, x, n).Fork? && Sub(shape, x, n).right.Leaf? && Sub(shape, x, n).key == x
      requires p == Sub(shape, x, n).box && p in heap
      modifies this
      ensures Valid() && T.Contents(shape) == old(T.Contents(shape)) - {x}
      ensures heap.Keys == old(heap.Keys) - {p}
    {
      ghost var s, h, r, sub := shape, heap, root, Sub(shape, x, n);
      RepSub(h, r, s, x, n, Root, r);
      SubFit(s, x, n);
      var q := heap[p].left;
      Store(t, q);
      heap := heap - {p};
      Frame(h, heap, q, sub.left);
      RepReplace(h, heap, r, s, x, n, Root, r, sub.left, q);
      UnlinkedFit(sub);
      ReplaceFit(s, x, n, sub.left);
      ContentsReplace(s, x, n, sub.left);
      shape := Replace(s, x, n, sub.left);
    }

    /** `delete`: exactly the key is removed, and exactly its node freed. */
    method Delete(x: Key)
      requires Valid()
      modifies this
      ensures Valid() && T.Contents(shape) == old(T.Contents(shape)) - {x}
      ensures if x in old(T.Contents(shape))
        then exists p <- old(heap.Keys) :: heap.Keys == old(heap.Keys) - {p}
        else heap == old(heap)
    {
      var t, n: nat := Root, 0;
      while true
        invariant Valid() && heap == old(heap) && root == old(root) && shape == old(shape)
        invariant Deep(shape, x, n) && t == LinkAt(shape, x, n, Root)
        decreases Sub(shape, x, n)
      {
        RepSub(heap, root, shape, x, n, Root, root);
        GetSub(shape, x, n);
        T.ContentsGet(shape, x);
        var p := Load(heap, root, t);
        if p == NULL { return; }
        var y := heap[p].key;
        if x == y {
          PushdownLeft(t, x, n);
          return;
        }
        Further(shape, x, n, Root);
        t := if x < y then LeftOf(p) else RightOf(p);
        n := n + 1;
      }
    }

    /** `lookup`: NULL for a key that is not there. */
    method Lookup(x: Key) returns (v: Value)
      requires Valid()
      ensures v == if x in T.Contents(shape) then T.Contents(shape)[x] else NULL
    {
      var p: Ptr, n: nat := root, 0;
      T.ContentsGet(shape, x);
      while p != NULL
        invariant Deep(shape, x, n) && Rep(heap, p, Sub(shape, x, n))
        decreases Sub(shape, x, n)
      {
        GetSub(shape, x, n);
        var y := heap[p].key;
        if x == y { return heap[p].value; }
        Further(shape, x, n, Root);
        p := if x < y then heap[p].left else heap[p].right;
        n := n + 1;
      }
      GetSub(shape, x, n);
      v := NULL;
    }
  }

  /** Memory after the two writes of a rotation. */
  lemma TurnedRep(h: Heap, h': Heap, s: Shape)
    requires CanTurn(s) && Distinct(s) && Rep(h, s.box, s) && s.right.box in h
    requires forall a <- Ptrs(s) | a != s.box && a != s.right.box :: a in h' && a in h && h'[a] == h[a]
    requires s.box in h' && h'[s.box] == h[s.box].(right := h[s.right.box].left)
    requires s.right.box in h' && h'[s.right.box] == h[s.right.box].(left := s.box)
    ensures Rep(h', s.right.box, Turned(s))
  {
    var p, q := s.box, s.right.box;
    Frame(h, h', h[p].left, s.left);
    Frame(h, h', h[q].left, s.right.left);
    Frame(h, h', h[q].right, s.right.right);
  }

  /** After a rotation the doomed node is one step further down its search path. */
  lemma {:induction false} AfterTurn(s: Shape, x: Key, n: nat, top: Link)
    requires Deep(s, x, n) && CanTurn(Sub(s, x, n)) && T.Sorted(Sub(s, x, n)) && Sub(s, x, n).key == x
    ensures var sub, s' := Sub(s, x, n), Replace(s, x, n, Turned(Sub(s, x, n)));
      && Deep(s', x, n + 1) && Sub(s', x, n + 1) == sub.(right := sub.right.left)
      && LinkAt(s', x, n + 1, top) == LeftOf(sub.right.box)
    decreases n
  {
    if n == 0 {
      T.RightKey(s);
      assert Deep(Down(Turned(s), x), x, 0);
    } else {
      AfterTurn(Down(s, x), x, n - 1, if x < s.key then LeftOf(s.box) else RightOf(s.box));
    }
  }
}
