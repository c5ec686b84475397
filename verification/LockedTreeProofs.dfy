/** Every step of the locking BST keeps the invariant and is one step, or no step,
    of the atomic map. */
module LockedTreeProofs {
  import opened AtomicMap
  import opened BoxTree
  import opened LockedTree

  // ---- what one thread's step means for the others ----

  /** A thread goes on knowing what it knows when its boxes keep their content and
      their place on the search paths. */
  lemma KnowsFrame(h: Heap, h': Heap, tr: Tree, tr': Tree, pc: Pc)
    requires Knows(h, tr, pc)
    requires forall b <- Held(pc) :: b in h ==> b in h' && h'[b] == h[b]
    requires forall b, x :: b in Held(pc) && OnPath(tr, b, x) ==> OnPath(tr', b, x)
    ensures Knows(h', tr', pc)
  {
  }

  lemma HeldApart(s: State, t: Tid, u: Tid)
    requires LocksMatch(s) && t in s.pcs && u in s.pcs && t != u
    ensures Held(s.pcs[t]) !! Held(s.pcs[u])
  {
    forall b | b in Held(s.pcs[t]) ensures b !in Held(s.pcs[u]) {
      assert s.locks[b] == t;
    }
  }

  lemma HeldAllocated(s: State, tr: Tree, t: Tid)
    requires Inv(s, tr) && t in s.pcs
    ensures Held(s.pcs[t]) <= s.boxes.Keys
  {
    assert Knows(s.boxes, tr, s.pcs[t]);
    forall b | b in Held(s.pcs[t]) ensures b in s.boxes {
      var pc := s.pcs[t];
      if OnPath(tr, b, pc.op.key) {
        OnPathInBoxes(tr, b, pc.op.key);
      } else if pc.Cross? {
        ChildOnPath(s.boxes, tr, pc.b, pc.op.key, pc.c);
      } else {
        PushChildren(s.boxes, tr, pc.b, pc.op.key);
      }
    }
  }

  /** The child a search moves to is on the search path. */
  lemma ChildOnPath(h: Heap, tr: Tree, b: Box, x: Key, c: Box)
    requires Rep(h, tr) && Distinct(tr) && Sorted(tr) && OnPath(tr, b, x) && ChildFor(h, b, x, c)
    ensures OnPath(tr, c, x) && c in h && c in Boxes(tr)
  {
    AtFacts(tr, x, b, h);
    AtBelow(tr, x, b, c);
    OnPathInBoxes(tr, c, x);
    RepBoxes(h, tr);
  }

  /** The two children of a held node are allocated and differ from each other and
      from the box that holds the node. */
  lemma PushChildren(h: Heap, tr: Tree, b: Box, x: Key)
    requires Rep(h, tr) && Distinct(tr) && Sorted(tr) && OnPath(tr, b, x) && b in h && h[b].Full?
    ensures var n := h[b].node;
      && {n.left, n.right} <= Boxes(tr) <= h.Keys
      && b != n.left && b != n.right && n.left != n.right
    ensures var n, sub := h[b].node, At(tr, x, b);
      && sub.Fork? && sub.box == b && sub.key == n.key && sub.value == n.value
      && sub.left.box == n.left && sub.right.box == n.right
  {
    AtFacts(tr, x, b, h);
    RepBoxes(h, tr);
    var sub := At(tr, x, b);
    BoxInBoxes(sub.left);
    BoxInBoxes(sub.right);
  }

  // ---- steps that leave the boxes alone ----

  /** Thread `t` moves to `pc`, and the locks change as its held boxes do. */
  lemma QuietStep(s: State, t: Tid, s': State, tr: Tree, pc: Pc)
    requires Inv(s, tr) && t in s.pcs
    requires s'.root == s.root && s'.boxes == s.boxes && s'.pcs == s.pcs[t := pc]
    requires LocksMatch(s') && Knows(s.boxes, tr, pc)
    ensures Inv(s', tr)
  {
  }

  lemma AcquireMatch(s: State, t: Tid, b: Box, pc: Pc)
    requires LocksMatch(s) && t in s.pcs && b !in s.locks && Held(pc) == Held(s.pcs[t]) + {b}
    ensures LocksMatch(Goto(s, t, pc).(locks := s.locks[b := t]))
  {
  }

  lemma ReleaseMatch(s: State, t: Tid, gone: set<Box>, pc: Pc)
    requires LocksMatch(s) && t in s.pcs && gone <= Held(s.pcs[t]) && Held(pc) == Held(s.pcs[t]) - gone
    ensures LocksMatch(Goto(s, t, pc).(locks := s.locks - gone))
  {
    var s' := Goto(s, t, pc).(locks := s.locks - gone);
    forall u, b | u in s'.pcs && b in Held(s'.pcs[u]) ensures b in s'.locks && s'.locks[b] == u {
      assert b in Held(s.pcs[u]) && s.locks[b] == u;
    }
    forall b | b in s'.locks ensures s'.locks[b] in s'.pcs && b in Held(s'.pcs[s'.locks[b]]) {
      assert b in s.locks && b in Held(s.pcs[s.locks[b]]);
    }
  }

  lemma GotoMatch(s: State, t: Tid, s': State, pc: Pc)
    requires LocksMatch(s) && t in s.pcs && Held(pc) == Held(s.pcs[t])
    requires s'.pcs == s.pcs[t := pc] && s'.locks == s.locks
    ensures LocksMatch(s')
  {
  }

  // ---- steps that write ----

  /** The heap `h'` holds `u` in place of the subtree at box `b`; what is not in `held`
      keeps its content and its search paths. */
  ghost predicate Edit(h: Heap, h': Heap, tr: Tree, x: Key, b: Box, u: Tree, held: set<Box>)
    requires OnPath(tr, b, x)
  {
    && u.box == b && Distinct(u) && Sorted(u) && Rep(h', u)
    && Keys(u) <= Keys(At(tr, x, b)) + {x} && Boxes(u) !! (Boxes(tr) - Boxes(At(tr, x, b)))
    && h'.Keys == h.Keys - Boxes(At(tr, x, b)) + Boxes(u) && held <= Boxes(At(tr, x, b))
    && (forall c <- h.Keys :: c !in held ==> c in h' && h'[c] == h[c])
    && PathsKept(At(tr, x, b), u, held)
  }

  ghost predicate PathsKept(sub: Tree, u: Tree, held: set<Box>) {
    forall c, y {:trigger OnPath(sub, c, y)} :: OnPath(sub, c, y) && c !in held ==> OnPath(u, c, y)
  }

  /** Thread `t` replaces the subtree at box `b`, which it holds, by `u`. */
  lemma EditStep(s: State, t: Tid, s': State, tr: Tree, x: Key, b: Box, u: Tree, pc: Pc)
    requires Inv(s, tr) && t in s.pcs && OnPath(tr, b, x)
    requires s'.root == s.root && s'.pcs == s.pcs[t := pc] && LocksMatch(s')
    requires Edit(s.boxes, s'.boxes, tr, x, b, u, Held(s.pcs[t]))
    requires Knows(s'.boxes, Replace(tr, x, b, u), pc)
    ensures Inv(s', Replace(tr, x, b, u))
  {
    var tr' := Replace(tr, x, b, u);
    ReplaceBoxes(tr, x, b, u);
    ReplaceSorted(tr, x, b, u);
    ReplaceRep(tr, x, b, u, s.boxes, s'.boxes);
    assert Shape(s', tr');
    forall v | v in s'.pcs ensures Knows(s'.boxes, tr', s'.pcs[v]) {
      if v != t {
        HeldApart(s, t, v);
        assert Knows(s.boxes, tr, s.pcs[v]);
        forall c, y | c in Held(s.pcs[v]) && OnPath(tr, c, y) ensures OnPath(tr', c, y) {
          ReplacePath(tr, x, b, u, c, y);
        }
        KnowsFrame(s.boxes, s'.boxes, tr, tr', s.pcs[v]);
      }
    }
  }

  ghost predicate Refines(s: State, tr: Tree, s': State, tr': Tree, t: Tid) {
    Inv(s', tr') && SpecStep(Abs(s, tr), Abs(s', tr'), t)
  }

  /** The status of the other threads does not change. */
  lemma AbsThreads(s: State, tr: Tree, s': State, tr': Tree, t: Tid, pc: Pc)
    requires t in s.pcs && s'.pcs == s.pcs[t := pc]
    ensures Abs(s', tr').threads == Abs(s, tr).threads[t := StatusOf(pc)]
    ensures StatusOf(pc) == StatusOf(s.pcs[t]) ==> Abs(s', tr').threads == Abs(s, tr).threads
  {
  }

  /** A step that makes the change of the pending insert or delete is its effect. */
  lemma CommitStep(s: State, t: Tid, s': State, tr: Tree, tr': Tree)
    requires t in s.pcs && StatusOf(s.pcs[t]).Pending? && !s.pcs[t].Enter? && !s.pcs[t].op.Lookup? && Inv(s', tr')
    requires s'.pcs == s.pcs[t := Exit(s.pcs[t].op, s.pcs[t].b, NULL)]
    requires Contents(tr') == Effect(Contents(tr), s.pcs[t].op)
    ensures Refines(s, tr, s', tr', t)
  {
    AbsThreads(s, tr, s', tr', t, s'.pcs[t]);
    assert Commits(Abs(s, tr), Abs(s', tr'), t);
  }

  /** Box `b` is still where the search for `x` leads, and the map has changed at `x` alone. */
  lemma EditSearch(tr: Tree, x: Key, b: Box, u: Tree, op: Op)
    requires OnPath(tr, b, x) && Distinct(tr) && Sorted(tr) && u.box == b && op.key == x
    requires forall y :: y != x ==> Get(u, y) == Get(At(tr, x, b), y)
    requires op.Insert? ==> Get(u, x) == Found(op.value)
    requires op.Delete? ==> Get(u, x) == Missing
    requires !op.Lookup?
    ensures OnPath(Replace(tr, x, b, u), b, x)
    ensures Contents(Replace(tr, x, b, u)) == Effect(Contents(tr), op)
  {
    ReplaceInner(tr, x, b, u, b);
    EditContents(tr, x, b, u, op);
  }

  function FillTree(op: Op, b: Box, c: Choice): Tree
    requires op.Insert?
  {
    Fork(b, op.key, op.value, Leaf(c.p1), Leaf(c.p2))
  }

  /** The tree and the heap after an empty box got a node. */
  lemma FillEdit(h: Heap, tr: Tree, op: Op, b: Box, c: Choice)
    requires OnPath(tr, b, op.key) && Distinct(tr) && Sorted(tr) && Rep(h, tr) && h.Keys == Boxes(tr)
    requires op.Insert? && b in h && h[b].Empty? && c.p1 !in h && c.p2 !in h && c.p1 != c.p2
    ensures Edit(h, FillHeap(h, op, b, c), tr, op.key, b, FillTree(op, b, c), {b})
    ensures OnPath(Replace(tr, op.key, b, FillTree(op, b, c)), b, op.key)
    ensures Contents(Replace(tr, op.key, b, FillTree(op, b, c))) == Effect(Contents(tr), op)
  {
    var x, u := op.key, FillTree(op, b, c);
    AtFacts(tr, x, b, h);
    assert At(tr, x, b) == Leaf(b);
    assert Boxes(u) == {b, c.p1, c.p2} && Keys(u.left) == Keys(u.right) == {};
    assert FillHeap(h, op, b, c).Keys == h.Keys + {c.p1, c.p2};
    assert Rep(FillHeap(h, op, b, c), u.left) && Rep(FillHeap(h, op, b, c), u.right);
    EditSearch(tr, x, b, u, op);
  }

  lemma FillResult(s: State, t: Tid, c: Choice, s': State)
    requires t in s.pcs && s.pcs[t].Look? && s.pcs[t].op.Insert? && s.pcs[t].b in s.boxes
    requires Step(s, t, c) == Next(s') && s.boxes[s.pcs[t].b].Empty?
    ensures c.p1 !in s.boxes && c.p2 !in s.boxes && c.p1 != c.p2
    ensures s'.root == s.root && s'.locks == s.locks && s'.boxes == FillHeap(s.boxes, s.pcs[t].op, s.pcs[t].b, c)
    ensures s'.pcs == s.pcs[t := Exit(s.pcs[t].op, s.pcs[t].b, NULL)]
  {
  }

  lemma FillKeeps(s: State, t: Tid, c: Choice, s': State, tr: Tree) returns (tr': Tree)
    requires Inv(s, tr) && t in s.pcs && s.pcs[t].Look? && s.pcs[t].op.Insert?
    requires Step(s, t, c) == Next(s') && s.boxes[s.pcs[t].b].Empty?
    ensures Inv(s', tr') && Contents(tr') == Effect(Contents(tr), s.pcs[t].op)
    ensures s'.pcs == s.pcs[t := Exit(s.pcs[t].op, s.pcs[t].b, NULL)]
  {
    var op, b := s.pcs[t].op, s.pcs[t].b;
    var x, pc := op.key, Exit(op, b, NULL);
    assert Knows(s.boxes, tr, s.pcs[t]);
    OnPathInBoxes(tr, b, x);
    FillResult(s, t, c, s');
    FillEdit(s.boxes, tr, op, b, c);
    tr' := Replace(tr, x, b, FillTree(op, b, c));
    GotoMatch(s, t, s', pc);
    EditStep(s, t, s', tr, x, b, FillTree(op, b, c), pc);
  }

  lemma FillStep(s: State, t: Tid, c: Choice, s': State, tr: Tree) returns (tr': Tree)
    requires Inv(s, tr) && t in s.pcs && s.pcs[t].Look? && s.pcs[t].op.Insert?
    requires Step(s, t, c) == Next(s') && s.boxes[s.pcs[t].b].Empty?
    ensures Refines(s, tr, s', tr', t)
  {
    tr' := FillKeeps(s, t, c, s', tr);
    CommitStep(s, t, s', tr, tr');
  }

  /** The tree and the heap after the value of `x` is overwritten. */
  lemma OverwriteShape(h: Heap, tr: Tree, x: Key, b: Box, v: Value)
    requires OnPath(tr, b, x) && Distinct(tr) && Sorted(tr) && Rep(h, tr) && HasNode(h, b, x)
    ensures var sub := At(tr, x, b);
      sub.Fork? && sub.box == b && sub.key == x && b in Boxes(sub) && Boxes(sub) <= Boxes(tr)
    ensures var sub := At(tr, x, b); var u := sub.(value := v);
      && Distinct(u) && Sorted(u) && Rep(OverwriteHeap(h, b, v), u)
      && Keys(u) == Keys(sub) && Boxes(u) == Boxes(sub)
      && forall c, y {:trigger OnPath(sub, c, y)} :: OnPath(sub, c, y) ==> OnPath(u, c, y)
  {
    AtFacts(tr, x, b, h);
    PushChildren(h, tr, b, x);
    var sub, h' := At(tr, x, b), OverwriteHeap(h, b, v);
    RepFrame(h, h', sub.left);
    RepFrame(h, h', sub.right);
  }

  lemma OverwriteEdit(h: Heap, tr: Tree, op: Op, b: Box)
    requires op.Insert? && OnPath(tr, b, op.key) && Distinct(tr) && Sorted(tr) && Rep(h, tr) && h.Keys == Boxes(tr)
    requires HasNode(h, b, op.key)
    ensures At(tr, op.key, b).Fork?
    ensures Edit(h, OverwriteHeap(h, b, op.value), tr, op.key, b, At(tr, op.key, b).(value := op.value), {b})
    ensures OnPath(Replace(tr, op.key, b, At(tr, op.key, b).(value := op.value)), b, op.key)
    ensures Contents(Replace(tr, op.key, b, At(tr, op.key, b).(value := op.value))) == Effect(Contents(tr), op)
  {
    var x := op.key;
    OverwriteShape(h, tr, x, b, op.value);
    EditSearch(tr, x, b, At(tr, x, b).(value := op.value), op);
  }

  lemma OverwriteResult(s: State, t: Tid, c: Choice, s': State)
    requires t in s.pcs && s.pcs[t].Look? && s.pcs[t].op.Insert?
    requires Step(s, t, c) == Next(s') && HasNode(s.boxes, s.pcs[t].b, s.pcs[t].op.key)
    ensures s'.root == s.root && s'.locks == s.locks
    ensures s'.boxes == OverwriteHeap(s.boxes, s.pcs[t].b, s.pcs[t].op.value)
    ensures s'.pcs == s.pcs[t := Exit(s.pcs[t].op, s.pcs[t].b, NULL)]
  {
  }

  lemma OverwriteKeeps(s: State, t: Tid, c: Choice, s': State, tr: Tree) returns (tr': Tree)
    requires Inv(s, tr) && t in s.pcs && s.pcs[t].Look? && s.pcs[t].op.Insert?
    requires Step(s, t, c) == Next(s') && HasNode(s.boxes, s.pcs[t].b, s.pcs[t].op.key)
    ensures Inv(s', tr') && Contents(tr') == Effect(Contents(tr), s.pcs[t].op)
    ensures s'.pcs == s.pcs[t := Exit(s.pcs[t].op, s.pcs[t].b, NULL)]
  {
    var op, b := s.pcs[t].op, s.pcs[t].b;
    var x, pc := op.key, Exit(op, b, NULL);
    assert Knows(s.boxes, tr, s.pcs[t]);
    OverwriteResult(s, t, c, s');
    OverwriteEdit(s.boxes, tr, op, b);
    var u := At(tr, x, b).(value := op.value);
    tr' := Replace(tr, x, b, u);
    GotoMatch(s, t, s', pc);
    EditStep(s, t, s', tr, x, b, u, pc);
  }

  lemma OverwriteStep(s: State, t: Tid, c: Choice, s': State, tr: Tree) returns (tr': Tree)
    requires Inv(s, tr) && t in s.pcs && s.pcs[t].Look? && s.pcs[t].op.Insert?
    requires Step(s, t, c) == Next(s') && HasNode(s.boxes, s.pcs[t].b, s.pcs[t].op.key)
    ensures Refines(s, tr, s', tr', t)
  {
    tr' := OverwriteKeeps(s, t, c, s', tr);
    CommitStep(s, t, s', tr, tr');
  }

  /** `turn_left` on the heap is `TurnLeft` on the tree. */
  lemma TurnLeftRep(h: Heap, sub: Tree)
    requires sub.Fork? && sub.right.Fork? && Distinct(sub) && Rep(h, sub)
    ensures {sub.box, sub.right.box} <= h.Keys && h[sub.box].Full? && h[sub.right.box].Full?
    ensures Rep(TurnLeftHeap(h, sub.box, sub.right.box, h[sub.box].node, h[sub.right.box].node), TurnLeft(sub))
  {
    var h' := TurnLeftHeap(h, sub.box, sub.right.box, h[sub.box].node, h[sub.right.box].node);
    RepBoxes(h, sub);
    RepFrame(h, h', sub.left);
    RepFrame(h, h', sub.right.left);
    RepFrame(h, h', sub.right.right);
  }

  /** The tree and the heap after a rotation at box `b` and its right child `q`. */
  lemma RotateShape(h: Heap, tr: Tree, x: Key, b: Box, q: Box)
    requires OnPath(tr, b, x) && Distinct(tr) && Sorted(tr) && Rep(h, tr) && HasNode(h, b, x)
    requires h[b].node.right == q && q in h && h[q].Full?
    ensures var sub := At(tr, x, b);
      && sub.Fork? && sub.right.Fork? && sub.box == b && sub.right.box == q
      && b != q && {b, q} <= Boxes(sub) <= Boxes(tr) && x < h[q].node.key
    ensures var sub := At(tr, x, b); var u := TurnLeft(sub);
      && u.box == b && Distinct(u) && Sorted(u) && Rep(TurnLeftHeap(h, b, q, h[b].node, h[q].node), u)
      && Keys(u) == Keys(sub) && Boxes(u) == Boxes(sub) && (forall y :: Get(u, y) == Get(sub, y))
      && forall c, y {:trigger OnPath(sub, c, y)} :: OnPath(sub, c, y) && c != q ==> OnPath(u, c, y)
  {
    AtFacts(tr, x, b, h);
    PushChildren(h, tr, b, x);
    var sub := At(tr, x, b);
    assert sub.right.Fork? && sub.right.box == q && h[q].node.key == sub.right.key;
    RightKey(sub);
    TurnLeftShape(sub);
    TurnLeftSearch(sub);
    TurnLeftRep(h, sub);
  }

  /** What the rotating thread knows afterwards. */
  lemma RotateEdit(h: Heap, tr: Tree, op: Op, b: Box, q: Box)
    requires op.Delete? && OnPath(tr, b, op.key) && Distinct(tr) && Sorted(tr) && Rep(h, tr) && HasNode(h, b, op.key)
    requires h.Keys == Boxes(tr) && h[b].node.right == q && q in h && h[q].Full?
    ensures At(tr, op.key, b).Fork? && At(tr, op.key, b).right.Fork? && b != q
    ensures Edit(h, TurnLeftHeap(h, b, q, h[b].node, h[q].node), tr, op.key, b, TurnLeft(At(tr, op.key, b)), {b, q})
    ensures Knows(TurnLeftHeap(h, b, q, h[b].node, h[q].node),
      Replace(tr, op.key, b, TurnLeft(At(tr, op.key, b))), PushCross(op, b, q))
    ensures Contents(Replace(tr, op.key, b, TurnLeft(At(tr, op.key, b)))) == Contents(tr)
  {
    RotateShape(h, tr, op.key, b, q);
    ReplaceInner(tr, op.key, b, TurnLeft(At(tr, op.key, b)), b);
    EditNothing(tr, op.key, b, TurnLeft(At(tr, op.key, b)));
  }

  lemma RotateKeeps(s: State, t: Tid, c: Choice, s': State, tr: Tree) returns (tr': Tree)
    requires Inv(s, tr) && t in s.pcs && s.pcs[t].PushTurn?
    requires Step(s, t, c) == Next(s') && s.boxes[s.pcs[t].q].Full?
    ensures Inv(s', tr') && Contents(tr') == Contents(tr)
    ensures s'.pcs == s.pcs[t := PushCross(s.pcs[t].op, s.pcs[t].b, s.pcs[t].q)]
  {
    var op, b, q := s.pcs[t].op, s.pcs[t].b, s.pcs[t].q;
    var x, pc := op.key, PushCross(op, b, q);
    assert Knows(s.boxes, tr, s.pcs[t]);
    RotateEdit(s.boxes, tr, op, b, q);
    var u := TurnLeft(At(tr, x, b));
    tr' := Replace(tr, x, b, u);
    GotoMatch(s, t, s', pc);
    EditStep(s, t, s', tr, x, b, u, pc);
  }

  /** A rotation moves keys between boxes and leaves the map as it is. */
  lemma RotateStep(s: State, t: Tid, c: Choice, s': State, tr: Tree) returns (tr': Tree)
    requires Inv(s, tr) && t in s.pcs && s.pcs[t].PushTurn?
    requires Step(s, t, c) == Next(s') && s.boxes[s.pcs[t].q].Full?
    ensures Refines(s, tr, s', tr', t) && Abs(s', tr') == Abs(s, tr)
  {
    tr' := RotateKeeps(s, t, c, s', tr);
    AbsThreads(s, tr, s', tr', t, s'.pcs[t]);
  }

  /** Moving the left child's content up is `PullLeft` on the tree. */
  lemma PullLeftRep(h: Heap, sub: Tree)
    requires sub.Fork? && sub.right.Leaf? && Distinct(sub) && Rep(h, sub)
    ensures {sub.box, sub.left.box} <= h.Keys
    ensures var h' := h[sub.box := h[sub.left.box]] - {sub.right.box, sub.left.box};
      Rep(h', PullLeft(sub))
  {
    RepBoxes(h, sub);
    var h' := h[sub.box := h[sub.left.box]] - {sub.right.box, sub.left.box};
    if sub.left.Fork? {
      RepFrame(h, h', sub.left.left);
      RepFrame(h, h', sub.left.right);
    }
  }

  /** The tree and the heap after box `b` has taken over its left child's content. */
  lemma UnlinkShape(h: Heap, tr: Tree, x: Key, b: Box, q: Box, l: Box)
    requires OnPath(tr, b, x) && Distinct(tr) && Sorted(tr) && Rep(h, tr) && HasNode(h, b, x)
    requires h[b].node.right == q && h[b].node.left == l && q in h && h[q] == Empty
    ensures At(tr, x, b).Fork? && At(tr, x, b).right == Leaf(q) && At(tr, x, b).left.box == l && At(tr, x, b).key == x
    ensures {b, q, l} <= Boxes(At(tr, x, b)) <= Boxes(tr) && l in h && b != q && b != l
    ensures var sub := At(tr, x, b); var u := PullLeft(sub);
      && u.box == b && Distinct(u) && Sorted(u) && Rep(h[b := h[l]] - {q, l}, u)
      && Keys(u) <= Keys(sub) && Boxes(u) == Boxes(sub) - {q, l}
    ensures forall y :: Get(PullLeft(At(tr, x, b)), y) == if y == x then Missing else Get(At(tr, x, b), y)
    ensures forall c, y {:trigger OnPath(At(tr, x, b), c, y)} ::
      OnPath(At(tr, x, b), c, y) && c != q && c != l ==> OnPath(PullLeft(At(tr, x, b)), c, y)
  {
    AtFacts(tr, x, b, h);
    PushChildren(h, tr, b, x);
    var sub := At(tr, x, b);
    assert sub.right == Leaf(q);
    PullLeftShape(sub);
    PullLeftSearch(sub);
    PullLeftRep(h, sub);
    BoxInBoxes(sub.left);
  }

  lemma WithoutBoxes(all: set<Box>, sub: set<Box>, gone: set<Box>)
    requires gone <= sub <= all
    ensures all - gone == all - sub + (sub - gone)
  {
  }

  lemma UnlinkEdit(h: Heap, tr: Tree, op: Op, b: Box, q: Box, l: Box)
    requires op.Delete? && OnPath(tr, b, op.key) && Distinct(tr) && Sorted(tr) && Rep(h, tr) && HasNode(h, b, op.key)
    requires h.Keys == Boxes(tr) && h[b].node.right == q && h[b].node.left == l && q in h && h[q] == Empty
    ensures At(tr, op.key, b).Fork? && At(tr, op.key, b).right.Leaf? && l in h && b !in {q, l}
    ensures Edit(h, UnlinkHeap(h, b, q, l), tr, op.key, b, PullLeft(At(tr, op.key, b)), {b, q, l})
    ensures OnPath(Replace(tr, op.key, b, PullLeft(At(tr, op.key, b))), b, op.key)
    ensures Contents(Replace(tr, op.key, b, PullLeft(At(tr, op.key, b)))) == Effect(Contents(tr), op)
  {
    var x := op.key;
    UnlinkShape(h, tr, x, b, q, l);
    WithoutBoxes(h.Keys, Boxes(At(tr, x, b)), {q, l});
    EditSearch(tr, x, b, PullLeft(At(tr, x, b)), op);
  }

  lemma UnlinkMatch(s: State, t: Tid, c: Choice, s': State, pc: Pc)
    requires LocksMatch(s) && t in s.pcs && s.pcs[t].PushEnd? && Step(s, t, c) == Next(s')
    requires pc == Exit(s.pcs[t].op, s.pcs[t].b, NULL) && s.pcs[t].b !in {s.pcs[t].q, s.pcs[t].l}
    ensures s'.root == s.root && s'.pcs == s.pcs[t := pc] && LocksMatch(s')
    ensures s.pcs[t].l in s.boxes && s'.boxes == UnlinkHeap(s.boxes, s.pcs[t].b, s.pcs[t].q, s.pcs[t].l)
  {
    ReleaseMatch(s, t, {s.pcs[t].q, s.pcs[t].l}, pc);
  }

  lemma UnlinkEffect(s: State, t: Tid, c: Choice, s': State, tr: Tree) returns (tr': Tree)
    requires Inv(s, tr) && t in s.pcs && s.pcs[t].PushEnd?
    requires Step(s, t, c) == Next(s')
    ensures Inv(s', tr') && Contents(tr') == Effect(Contents(tr), s.pcs[t].op)
    ensures s'.pcs == s.pcs[t := Exit(s.pcs[t].op, s.pcs[t].b, NULL)]
  {
    var op, b, q, l := s.pcs[t].op, s.pcs[t].b, s.pcs[t].q, s.pcs[t].l;
    var x, pc := op.key, Exit(op, b, NULL);
    assert Knows(s.boxes, tr, s.pcs[t]);
    UnlinkEdit(s.boxes, tr, op, b, q, l);
    var u := PullLeft(At(tr, x, b));
    tr' := Replace(tr, x, b, u);
    UnlinkMatch(s, t, c, s', pc);
    EditStep(s, t, s', tr, x, b, u, pc);
  }

  /** The unlink is where a delete takes effect. */
  lemma UnlinkKeeps(s: State, t: Tid, c: Choice, s': State, tr: Tree) returns (tr': Tree)
    requires Inv(s, tr) && t in s.pcs && s.pcs[t].PushEnd?
    requires Step(s, t, c) == Next(s')
    ensures Refines(s, tr, s', tr', t)
  {
    tr' := UnlinkEffect(s, t, c, s', tr);
    CommitStep(s, t, s', tr, tr');
  }

  // ---- all steps ----

  /** No thread ever touches a freed box, dereferences NULL, or releases or frees a
      lock it does not hold. */
  lemma NoFault(s: State, t: Tid, c: Choice, tr: Tree)
    requires Inv(s, tr) && t in s.pcs
    ensures Step(s, t, c) != Fault
  {
    var pc := s.pcs[t];
    assert Knows(s.boxes, tr, pc);
    HeldAllocated(s, tr, t);
    AwaitedAllocated(s, tr, t);
    forall b | b in Held(pc) ensures Holds(s, t, b) { }
    if pc.Enter? { RepBoxes(s.boxes, tr); BoxInBoxes(tr); }
  }

  /** The lock a thread waits for belongs to an allocated box. */
  lemma AwaitedAllocated(s: State, tr: Tree, t: Tid)
    requires Inv(s, tr) && t in s.pcs
    ensures Awaited(s.root, s.pcs[t]) <= s.boxes.Keys
  {
    var pc := s.pcs[t];
    assert Knows(s.boxes, tr, pc);
    match pc {
      case Enter(_) => BoxInBoxes(tr);
      case Reach(op, b, c) => ChildOnPath(s.boxes, tr, b, op.key, c);
      case PushReach(op, b, q) => PushChildren(s.boxes, tr, b, op.key);
      case PushLeft(op, b, q, l) => PushChildren(s.boxes, tr, b, op.key);
      case _ =>
    }
  }

  lemma RootOnPath(tr: Tree, x: Key)
    ensures OnPath(tr, tr.box, x)
  {
  }

  /** A search step that writes nothing. */
  lemma LookKeeps(s: State, t: Tid, c: Choice, s': State, tr: Tree) returns (tr': Tree)
    requires Inv(s, tr) && t in s.pcs && s.pcs[t].Look?
    requires Step(s, t, c) == Next(s')
    ensures Refines(s, tr, s', tr', t)
  {
    var op, b := s.pcs[t].op, s.pcs[t].b;
    assert Knows(s.boxes, tr, s.pcs[t]);
    if op.Insert? && s.boxes[b].Empty? {
      tr' := FillStep(s, t, c, s', tr);
    } else if op.Insert? && s.boxes[b].node.key == op.key {
      tr' := OverwriteStep(s, t, c, s', tr);
    } else {
      tr' := tr;
      var pc := s'.pcs[t];
      GotoMatch(s, t, s', pc);
      QuietStep(s, t, s', tr, pc);
      AbsThreads(s, tr, s', tr, t, pc);
      if pc.Exit? {
        SearchEnds(s.boxes, tr, b, op.key);
        assert pc.result == Answer(Contents(tr), op);
        assert Effect(Contents(tr), op) == Contents(tr);
        assert Commits(Abs(s, tr), Abs(s', tr), t);
      }
    }
  }

  /** At the end of its search path a thread reads off what the map says of its key. */
  lemma SearchEnds(h: Heap, tr: Tree, b: Box, x: Key)
    requires Rep(h, tr) && Distinct(tr) && Sorted(tr) && OnPath(tr, b, x) && b in h
    ensures h[b].Empty? ==> x !in Contents(tr)
    ensures HasNode(h, b, x) ==> x in Contents(tr) && Contents(tr)[x] == h[b].node.value
  {
    AtFacts(tr, x, b, h);
    AtShared(tr, x, x, b);
    ContentsGet(tr, x);
  }

  /** Steps that take one lock. */
  lemma AcquireKeeps(s: State, t: Tid, c: Choice, s': State, tr: Tree)
    requires Inv(s, tr) && t in s.pcs && Step(s, t, c) == Next(s')
    requires Awaited(s.root, s.pcs[t]) != {}
    ensures Refines(s, tr, s', tr, t)
  {
    var pc, pc' := s.pcs[t], s'.pcs[t];
    assert Knows(s.boxes, tr, pc);
    AbsThreads(s, tr, s', tr, t, pc');
    if pc.Enter? { RootOnPath(tr, pc.op.key); }
    var d :| d in Awaited(s.root, pc);
    AcquireMatch(s, t, d, pc');
    QuietStep(s, t, s', tr, pc');
  }

  /** Steps that drop one lock. */
  lemma ReleaseKeeps(s: State, t: Tid, c: Choice, s': State, tr: Tree)
    requires Inv(s, tr) && t in s.pcs && Step(s, t, c) == Next(s')
    requires s.pcs[t].Cross? || s.pcs[t].Exit? || s.pcs[t].PushCross?
    ensures Refines(s, tr, s', tr, t)
  {
    var pc, pc' := s.pcs[t], s'.pcs[t];
    assert Knows(s.boxes, tr, pc);
    AbsThreads(s, tr, s', tr, t, pc');
    if pc.Exit? {
      assert Returns(Abs(s, tr), Abs(s', tr), t);
    } else {
      var d := if pc.Cross? then pc.c else pc.q;
      ChildOnPath(s.boxes, tr, pc.b, pc.op.key, d);
      PushChildren(s.boxes, tr, pc.b, pc.op.key);
    }
    ReleaseMatch(s, t, {pc.b}, pc');
    QuietStep(s, t, s', tr, pc');
  }

  /** Steps that only move on to the next point. */
  lemma MoveKeeps(s: State, t: Tid, c: Choice, s': State, tr: Tree)
    requires Inv(s, tr) && t in s.pcs && Step(s, t, c) == Next(s')
    requires s.pcs[t].Idle? || s.pcs[t].Push? || (s.pcs[t].PushTurn? && s.boxes[s.pcs[t].q].Empty?)
    ensures Refines(s, tr, s', tr, t)
  {
    var pc, pc' := s.pcs[t], s'.pcs[t];
    assert Knows(s.boxes, tr, pc);
    AbsThreads(s, tr, s', tr, t, pc');
    GotoMatch(s, t, s', pc');
    QuietStep(s, t, s', tr, pc');
    if pc.Idle? { assert Invokes(Abs(s, tr), Abs(s', tr), t); }
  }

  /** Every step keeps the invariant and is at most one step of the atomic map. */
  lemma StepRefines(s: State, t: Tid, c: Choice, s': State, tr: Tree) returns (tr': Tree)
    requires Inv(s, tr) && t in s.pcs && Step(s, t, c) == Next(s')
    ensures Refines(s, tr, s', tr', t)
  {
    if s.pcs[t].Look? {
      tr' := LookKeeps(s, t, c, s', tr);
    } else if s.pcs[t].PushEnd? {
      tr' := UnlinkKeeps(s, t, c, s', tr);
    } else if s.pcs[t].PushTurn? && s.boxes[s.pcs[t].q].Full? {
      tr' := RotateStep(s, t, c, s', tr);
    } else {
      tr' := tr;
      if Awaited(s.root, s.pcs[t]) != {} {
        AcquireKeeps(s, t, c, s', tr);
      } else if s.pcs[t].Cross? || s.pcs[t].Exit? || s.pcs[t].PushCross? {
        ReleaseKeeps(s, t, c, s', tr);
      } else {
        MoveKeeps(s, t, c, s', tr);
      }
    }
  }
}
