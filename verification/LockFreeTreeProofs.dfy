/** Every step of the lock-free BST keeps the invariant and is one step, or no step,
    of the atomic map. */
module LockFreeTreeProofs {
  import opened AtomicMap
  import opened BoxTree
  import opened F = LockFreeTree

  ghost predicate Refines(s: State, tr: Tree, s': State, tr': Tree, t: Tid) {
    Inv(s', tr') && SpecStep(F.Abs(s, tr), F.Abs(s', tr'), t)
  }

  lemma AbsThreads(s: State, tr: Tree, s': State, tr': Tree, t: Tid, pc: Pc)
    requires t in s.pcs && s'.pcs == s.pcs[t := pc]
    ensures F.Abs(s', tr').threads == F.Abs(s, tr).threads[t := StatusOf(pc)]
    ensures StatusOf(pc) == StatusOf(s.pcs[t]) ==> F.Abs(s', tr').threads == F.Abs(s, tr).threads
  {
  }

  /** Cells on a search path are allocated link cells. */
  lemma PathCell(s: State, tr: Tree, c: Cell, x: Key)
    requires Shape(s, tr) && OnPath(tr, c, x)
    ensures c in Boxes(tr) && c in s.links && c in View(s)
  {
    OnPathInBoxes(tr, c, x);
    RepBoxes(View(s), tr);
  }

  lemma AtFacts'(s: State, tr: Tree, c: Cell, x: Key)
    requires Shape(s, tr) && OnPath(tr, c, x)
    ensures var sub := At(tr, x, c);
      sub.box == c && Distinct(sub) && Sorted(sub) && Rep(View(s), sub) && Boxes(sub) <= Boxes(tr)
  {
    AtFacts(tr, x, c, View(s));
  }

  /** What a search reads off at the end of its path is what the map says of its key. */
  lemma SearchEnds(s: State, tr: Tree, c: Cell, x: Key)
    requires Shape(s, tr) && OnPath(tr, c, x)
    ensures c in s.links
    ensures s.links[c].Null? ==> x !in Contents(tr)
    ensures s.links[c].To? ==> NodeOk(s, s.links[c].ptr)
    ensures s.links[c].To? && s.nodes[s.links[c].ptr].key == x ==>
      x in Contents(tr) && Contents(tr)[x] == s.values[s.nodes[s.links[c].ptr].value]
  {
    PathCell(s, tr, c, x);
    AtFacts'(s, tr, c, x);
    AtShared(tr, x, x, c);
    ContentsGet(tr, x);
  }

  /** The link followed from a node leads to a cell on the search path. */
  lemma NextOnPath(s: State, tr: Tree, c: Cell, x: Key)
    requires Shape(s, tr) && OnPath(tr, c, x) && c in s.links && s.links[c].To?
    requires s.links[c].ptr in s.nodes && s.nodes[s.links[c].ptr].key != x
    ensures var n := s.nodes[s.links[c].ptr];
      OnPath(tr, if x < n.key then n.left else n.right, x)
  {
    PathCell(s, tr, c, x);
    AtFacts'(s, tr, c, x);
    var n := s.nodes[s.links[c].ptr];
    AtBelow(tr, x, c, if x < n.key then n.left else n.right);
  }

  // ---- steps that leave memory alone ----

  lemma QuietStep(s: State, t: Tid, s': State, tr: Tree, pc: Pc)
    requires Inv(s, tr) && t in s.pcs && s' == Goto(s, t, pc)
    requires Knows(s, tr, pc) && forall p :: Owns(pc, p) ==> Owns(s.pcs[t], p)
    ensures Inv(s', tr)
  {
    assert View(s') == View(s);
    MemorySame(s, s');
    forall u | u in s'.pcs ensures Knows(s', tr, s'.pcs[u]) {
      if u != t { assert Knows(s, tr, s.pcs[u]); }
      KnowsSame(s, s', tr, s'.pcs[u]);
    }
  }

  lemma MemorySame(s: State, s': State)
    requires s' == s.(pcs := s'.pcs) && Memory(s)
    ensures Memory(s')
  {
    forall p ensures NodeMemory(s', p) { assert NodeMemory(s, p); }
    forall p, q ensures Apart(s', p, q) { assert Apart(s, p, q); }
    forall c ensures LinkMemory(s', c) { assert LinkMemory(s, c); }
    forall c, d ensures Unshared(s', c, d) { assert Unshared(s, c, d); }
  }

  lemma KnowsSame(s: State, s': State, tr: Tree, pc: Pc)
    requires s' == s.(pcs := s'.pcs) && Knows(s, tr, pc)
    ensures Knows(s', tr, pc)
  {
    RefSame(s, s', pc);
  }

  lemma RefSame(s: State, s': State, pc: Pc)
    requires s'.links == s.links
    ensures forall ref, notAt :: RefOk(s, ref, notAt) ==> RefOk(s', ref, notAt)
  {
  }

  lemma LoadKeeps(s: State, t: Tid, c: Choice, s': State, tr: Tree)
    requires Inv(s, tr) && t in s.pcs && s.pcs[t].Load? && Step(s, t, c) == Next(s')
    ensures Refines(s, tr, s', tr, t)
  {
    var pc, pc' := s.pcs[t], s'.pcs[t];
    assert Knows(s, tr, pc);
    AbsThreads(s, tr, s', tr, t, pc');
    SearchEnds(s, tr, pc.temp, pc.op.key);
    QuietStep(s, t, s', tr, pc');
    if pc'.Exit? {
      assert Commits(F.Abs(s, tr), F.Abs(s', tr), t);
    }
  }

  lemma WalkKeeps(s: State, t: Tid, c: Choice, s': State, tr: Tree)
    requires Inv(s, tr) && t in s.pcs && s.pcs[t].Branch? && Step(s, t, c) == Next(s')
    requires s.pcs[t].tp in s.nodes && s.nodes[s.pcs[t].tp].key != s.pcs[t].op.key
    ensures Refines(s, tr, s', tr, t)
  {
    var pc, pc' := s.pcs[t], s'.pcs[t];
    assert Knows(s, tr, pc);
    AbsThreads(s, tr, s', tr, t, pc');
    NextOnPath(s, tr, pc.temp, pc.op.key);
    QuietStep(s, t, s', tr, pc');
  }

  lemma ReadKeeps(s: State, t: Tid, c: Choice, s': State, tr: Tree)
    requires Inv(s, tr) && t in s.pcs && s.pcs[t].Branch? && Step(s, t, c) == Next(s')
    requires s.pcs[t].tp in s.nodes && s.nodes[s.pcs[t].tp].key == s.pcs[t].op.key
    requires s.pcs[t].op.Lookup?
    ensures Refines(s, tr, s', tr, t)
  {
    var pc, pc' := s.pcs[t], s'.pcs[t];
    assert Knows(s, tr, pc);
    AbsThreads(s, tr, s', tr, t, pc');
    SearchEnds(s, tr, pc.temp, pc.op.key);
    QuietStep(s, t, s', tr, pc');
    assert Commits(F.Abs(s, tr), F.Abs(s', tr), t);
  }

  // ---- steps that write ----

  /** Facts of another thread survive a step that keeps the linked cells linked, keeps
      the search paths, and keeps away from the thread's private node. */
  lemma KnowsFrame(s: State, s': State, tr: Tree, tr': Tree, pc: Pc)
    requires Knows(s, tr, pc)
    requires forall c, x {:trigger OnPath(tr, c, x)} :: OnPath(tr, c, x) ==> OnPath(tr', c, x)
    requires forall c <- s.links :: s.links[c].To? ==> c in s'.links && s'.links[c] == s.links[c]
    requires forall p :: Owns(pc, p) && Private(s, tr, p) ==>
      Private(s', tr', p) && s'.nodes[p] == s.nodes[p]
      && (s.nodes[p].value in s.values ==>
            s.nodes[p].value in s'.values && s'.values[s.nodes[p].value] == s.values[s.nodes[p].value])
    ensures Knows(s', tr', pc)
  {
    forall ref, notAt | RefOk(s, ref, notAt) ensures RefOk(s', ref, notAt) {
      if ref.To? {
        var c :| c in s.links && c !in notAt && s.links[c] == ref;
        assert c in s'.links;
      }
    }
    if pc.Cas? || pc.Undo? { assert Owns(pc, pc.p); }
  }

  lemma NewOwner(s: State, t: Tid, s': State, p: Ptr, pc: Pc)
    requires OwnersApart(s) && t in s.pcs && s'.pcs == s.pcs[t := pc]
    requires forall q :: Owns(pc, q) ==> q == p
    requires forall u <- s.pcs :: u != t ==> !Owns(s.pcs[u], p)
    ensures OwnersApart(s')
  {
    forall v, u, q | v in s'.pcs && u in s'.pcs && Owns(s'.pcs[v], q) && Owns(s'.pcs[u], q) ensures v == u {
      if v != t && u != t {
        assert Owns(s.pcs[v], q) && Owns(s.pcs[u], q);
      }
    }
  }

  /** The allocations of `insert` before its CAS. */
  ghost predicate Builds(s: State, s': State, op: Op, c: Choice) {
    && op.Insert?
    && c.p !in s.nodes && c.value !in s.values && c.left !in s.links && c.right !in s.links && c.left != c.right
    && s'.root == s.root
    && s'.links == s.links[c.left := Null][c.right := Null]
    && s'.values == s.values[c.value := op.value]
    && s'.nodes == s.nodes[c.p := F.Node.Node(op.key, c.value, c.left, c.right)]
  }

  lemma BuildMemory(s: State, s': State, op: Op, c: Choice)
    requires Memory(s) && Builds(s, s', op, c)
    ensures Memory(s')
  {
    assert NodeMemory(s, c.p);
    forall p ensures NodeMemory(s', p) { assert NodeMemory(s, p); }
    forall p, q ensures Apart(s', p, q) {
      assert Apart(s, p, q) && NodeMemory(s, p) && NodeMemory(s, q);
    }
    forall k ensures LinkMemory(s', k) { assert LinkMemory(s, k); }
    forall k, d ensures Unshared(s', k, d) { assert Unshared(s, k, d); }
  }

  lemma BuildShape(s: State, s': State, op: Op, c: Choice, tr: Tree)
    requires Memory(s) && Builds(s, s', op, c) && Shape(s, tr)
    ensures Shape(s', tr) && Boxes(tr) <= s.links.Keys
  {
    RepBoxes(View(s), tr);
    forall b | b in Boxes(tr) ensures b in View(s) && b in View(s') && View(s')[b] == View(s)[b] {
      assert LinkMemory(s, b);
    }
    RepFrame(View(s), View(s'), tr);
  }

  lemma BuildPrivate(s: State, s': State, op: Op, c: Choice, tr: Tree, q: Ptr)
    requires Builds(s, s', op, c) && Private(s, tr, q)
    ensures Private(s', tr, q) && s'.nodes[q] == s.nodes[q]
  {
  }

  lemma BuildOwn(s: State, s': State, op: Op, c: Choice, tr: Tree)
    requires Memory(s) && Builds(s, s', op, c) && Boxes(tr) <= s.links.Keys
    ensures Private(s', tr, c.p)
  {
    forall k | k in s.links ensures s.links[k] != To(c.p) { assert LinkMemory(s, k); }
  }

  lemma BuildKnows(s: State, s': State, op: Op, c: Choice, tr: Tree, pc: Pc)
    requires Builds(s, s', op, c) && Knows(s, tr, pc)
    ensures Knows(s', tr, pc) && !Owns(pc, c.p)
  {
    forall q | Owns(pc, q) && Private(s, tr, q) ensures Private(s', tr, q) && s'.nodes[q] == s.nodes[q] {
      BuildPrivate(s, s', op, c, tr, q);
    }
    KnowsFrame(s, s', tr, tr, pc);
  }

  lemma BuildKeeps(s: State, t: Tid, c: Choice, s': State, tr: Tree)
    requires Inv(s, tr) && t in s.pcs && s.pcs[t].Build? && Step(s, t, c) == Next(s')
    ensures Refines(s, tr, s', tr, t)
  {
    var pc, pc' := s.pcs[t], s'.pcs[t];
    assert Knows(s, tr, pc);
    AbsThreads(s, tr, s', tr, t, pc');
    BuildMemory(s, s', pc.op, c);
    BuildShape(s, s', pc.op, c, tr);
    BuildOwn(s, s', pc.op, c, tr);
    forall u | u in s.pcs ensures Knows(s', tr, s.pcs[u]) && !Owns(s.pcs[u], c.p) {
      assert Knows(s, tr, s.pcs[u]);
      BuildKnows(s, s', pc.op, c, tr, s.pcs[u]);
    }
    NewOwner(s, t, s', c.p, pc');
  }

  /** The `free`s of `insert` after a failed CAS. */
  ghost predicate Frees(s: State, s': State, p: Ptr) {
    && p in s.nodes && s'.root == s.root
    && s'.links == s.links - {s.nodes[p].left, s.nodes[p].right}
    && s'.values == s.values - {s.nodes[p].value}
    && s'.nodes == s.nodes - {p}
  }

  lemma UndoMemory(s: State, s': State, tr: Tree, p: Ptr)
    requires Memory(s) && Frees(s, s', p) && Private(s, tr, p)
    ensures Memory(s')
  {
    forall q ensures NodeMemory(s', q) { assert NodeMemory(s, q) && Apart(s, q, p); }
    forall q, r ensures Apart(s', q, r) { assert Apart(s, q, r); }
    forall k ensures LinkMemory(s', k) { assert LinkMemory(s, k); }
    forall k, d ensures Unshared(s', k, d) { assert Unshared(s, k, d); }
  }

  lemma UndoShape(s: State, s': State, tr: Tree, p: Ptr)
    requires Memory(s) && Frees(s, s', p) && Private(s, tr, p) && Shape(s, tr)
    ensures Shape(s', tr)
  {
    RepBoxes(View(s), tr);
    forall b | b in Boxes(tr) ensures b in View(s) && b in View(s') && View(s')[b] == View(s)[b] {
      if s.links[b].To? { assert Apart(s, s.links[b].ptr, p); }
    }
    RepFrame(View(s), View(s'), tr);
  }

  /** Another private node is not touched by the frees. */
  lemma UndoPrivate(s: State, s': State, tr: Tree, p: Ptr, q: Ptr)
    requires Memory(s) && Frees(s, s', p) && Private(s, tr, q) && p != q
    ensures Private(s', tr, q) && s'.nodes[q] == s.nodes[q] && s.nodes[q].value != s.nodes[p].value
  {
    assert Apart(s, q, p);
  }

  lemma UndoKeeps(s: State, t: Tid, c: Choice, s': State, tr: Tree)
    requires Inv(s, tr) && t in s.pcs && s.pcs[t].Undo? && Step(s, t, c) == Next(s')
    ensures Refines(s, tr, s', tr, t)
  {
    var pc, pc' := s.pcs[t], s'.pcs[t];
    var p := pc.p;
    assert Knows(s, tr, pc) && Owns(pc, p);
    AbsThreads(s, tr, s', tr, t, pc');
    UndoMemory(s, s', tr, p);
    UndoShape(s, s', tr, p);
    forall u | u in s.pcs && u != t ensures Knows(s', tr, s.pcs[u]) {
      assert Knows(s, tr, s.pcs[u]);
      forall q | Owns(s.pcs[u], q) && Private(s, tr, q)
        ensures Private(s', tr, q) && s'.nodes[q] == s.nodes[q] && s.nodes[q].value != s.nodes[p].value
      {
        UndoPrivate(s, s', tr, p, q);
      }
      KnowsFrame(s, s', tr, tr, s.pcs[u]);
    }
    KnowsFrame(s, s', tr, tr, pc');
    NewOwner(s, t, s', p, pc');
  }

  /** Replacing the subtree at a cell on the search path of `x`. */
  lemma EditShape(s: State, s': State, tr: Tree, x: Key, c: Cell, u: Tree)
    requires Shape(s, tr) && OnPath(tr, c, x) && s'.root == s.root
    requires u.box == c && Distinct(u) && Sorted(u) && Rep(View(s'), u)
    requires Keys(u) <= Keys(At(tr, x, c)) + {x}
    requires Boxes(u) !! (Boxes(tr) - Boxes(At(tr, x, c)))
    requires forall b <- Boxes(tr) :: b != c ==> b in View(s) && b in View(s') && View(s')[b] == View(s)[b]
    ensures Shape(s', Replace(tr, x, c, u))
    ensures Boxes(Replace(tr, x, c, u)) == Boxes(tr) - Boxes(At(tr, x, c)) + Boxes(u)
  {
    RepBoxes(View(s), tr);
    AtFacts'(s, tr, c, x);
    BoxInBoxes(At(tr, x, c));
    ReplaceBoxes(tr, x, c, u);
    ReplaceSorted(tr, x, c, u);
    ReplaceRep(tr, x, c, u, View(s), View(s'));
  }

  lemma EditPaths(tr: Tree, x: Key, b: Cell, u: Tree)
    requires OnPath(tr, b, x) && Distinct(tr) && u.box == b
    requires forall c, y {:trigger OnPath(At(tr, x, b), c, y)} :: OnPath(At(tr, x, b), c, y) ==> OnPath(u, c, y)
    ensures forall c, y {:trigger OnPath(tr, c, y)} :: OnPath(tr, c, y) ==> OnPath(Replace(tr, x, b, u), c, y)
  {
    forall c, y | OnPath(tr, c, y) ensures OnPath(Replace(tr, x, b, u), c, y) {
      ReplacePath(tr, x, b, u, c, y);
    }
  }

  /** The store of a new value into the node found. */
  ghost predicate Stores(s: State, s': State, p: Ptr, v: Value) {
    && NodeOk(s, p) && s'.root == s.root && s'.links == s.links && s'.nodes == s.nodes
    && s'.values == s.values[s.nodes[p].value := v]
  }

  lemma StoreMemory(s: State, s': State, p: Ptr, v: Value)
    requires Memory(s) && Stores(s, s', p, v)
    ensures Memory(s')
  {
    forall q ensures NodeMemory(s', q) { assert NodeMemory(s, q); }
    forall q, r ensures Apart(s', q, r) { assert Apart(s, q, r); }
    forall k ensures LinkMemory(s', k) { assert LinkMemory(s, k); }
    forall k, d ensures Unshared(s', k, d) { assert Unshared(s, k, d); }
  }

  /** The store is seen at the one cell that links the node. */
  lemma StoreView(s: State, s': State, c: Cell, p: Ptr, v: Value)
    requires Memory(s) && Stores(s, s', p, v) && c in s.links && s.links[c] == To(p)
    ensures View(s').Keys == View(s).Keys && c in View(s) && View(s)[c].Full?
    ensures View(s')[c] == Full(View(s)[c].node.(value := v))
    ensures forall b <- View(s) :: b != c ==> View(s')[b] == View(s)[b]
  {
    forall b | b in View(s) && b != c ensures View(s')[b] == View(s)[b] {
      if s.links[b].To? {
        assert Unshared(s, c, b) && Apart(s, s.links[b].ptr, p);
      }
    }
  }

  lemma StoreShape(s: State, s': State, tr: Tree, x: Key, c: Cell, p: Ptr, v: Value) returns (u: Tree)
    requires Memory(s) && Stores(s, s', p, v) && Shape(s, tr) && OnPath(tr, c, x)
    requires c in s.links && s.links[c] == To(p) && s.nodes[p].key == x
    ensures u.box == c && Get(u, x) == Found(v)
    ensures Shape(s', Replace(tr, x, c, u)) && Boxes(Replace(tr, x, c, u)) == Boxes(tr)
    ensures forall y :: y != x ==> Get(u, y) == Get(At(tr, x, c), y)
    ensures forall d, y {:trigger OnPath(At(tr, x, c), d, y)} :: OnPath(At(tr, x, c), d, y) ==> OnPath(u, d, y)
  {
    AtFacts'(s, tr, c, x);
    StoreView(s, s', c, p, v);
    var sub := At(tr, x, c);
    u := sub.(value := v);
    RepBoxes(View(s), tr);
    RepFrame(View(s), View(s'), sub.left);
    RepFrame(View(s), View(s'), sub.right);
    EditShape(s, s', tr, x, c, u);
  }

  lemma StoreOthers(s: State, s': State, tr: Tree, tr': Tree, p: Ptr, v: Value, pc: Pc)
    requires Memory(s) && Stores(s, s', p, v) && Knows(s, tr, pc)
    requires Boxes(tr') == Boxes(tr) && !Owns(pc, p)
    requires forall c, y {:trigger OnPath(tr, c, y)} :: OnPath(tr, c, y) ==> OnPath(tr', c, y)
    ensures Knows(s', tr', pc)
  {
    forall q | Owns(pc, q) && Private(s, tr, q) ensures s.nodes[q].value != s.nodes[p].value {
      assert Apart(s, q, p);
    }
    KnowsFrame(s, s', tr, tr', pc);
  }

  lemma StoreKeeps(s: State, t: Tid, c: Choice, s': State, tr: Tree) returns (tr': Tree)
    requires Inv(s, tr) && t in s.pcs && s.pcs[t].Branch? && Step(s, t, c) == Next(s')
    requires s.pcs[t].tp in s.nodes && s.nodes[s.pcs[t].tp].key == s.pcs[t].op.key
    requires s.pcs[t].op.Insert?
    ensures Refines(s, tr, s', tr', t)
  {
    var pc, pc' := s.pcs[t], s'.pcs[t];
    var op, x, temp, p := pc.op, pc.op.key, pc.temp, pc.tp;
    assert Knows(s, tr, pc);
    SearchEnds(s, tr, temp, x);
    StoreMemory(s, s', p, op.value);
    var u := StoreShape(s, s', tr, x, temp, p, op.value);
    tr' := Replace(tr, x, temp, u);
    EditPaths(tr, x, temp, u);
    forall w | w in s.pcs && w != t ensures Knows(s', tr', s.pcs[w]) {
      assert Knows(s, tr, s.pcs[w]);
      StoreOthers(s, s', tr, tr', p, op.value, s.pcs[w]);
    }
    NewOwner(s, t, s', p, pc');
    AbsThreads(s, tr, s', tr', t, pc');
    EditContents(tr, x, temp, u, op);
    assert Commits(F.Abs(s, tr), F.Abs(s', tr'), t);
  }

  /** A CAS succeeds only on a NULL link, and only with `*ref` at NULL: a stale
      `*ref` is linked somewhere else, so it cannot be in the cell aimed at. */
  lemma CasOnNull(s: State, t: Tid, tr: Tree)
    requires Inv(s, tr) && t in s.pcs && s.pcs[t].Cas?
    requires s.pcs[t].temp in s.links && s.links[s.pcs[t].temp] == s.pcs[t].ref
    ensures s.pcs[t].ref.Null?
  {
    var pc := s.pcs[t];
    assert Knows(s, tr, pc);
    if pc.ref.To? {
      var c :| c in s.links && c !in {pc.temp} && s.links[c] == pc.ref;
      LinkedOnce(s, c, pc.temp);
    }
  }

  lemma LinkedOnce(s: State, c: Cell, d: Cell)
    requires Memory(s) && c in s.links && d in s.links && s.links[c].To? && s.links[d] == s.links[c]
    ensures c == d
  {
    assert Unshared(s, c, d);
  }

  /** Linking a private node from a NULL cell. */
  ghost predicate Links(s: State, s': State, tr: Tree, c: Cell, p: Ptr) {
    && c in s.links && s.links[c].Null? && Private(s, tr, p)
    && s'.root == s.root && s'.values == s.values && s'.nodes == s.nodes
    && s'.links == s.links[c := To(p)]
  }

  lemma LinkKeepsMemory(s: State, s': State, tr: Tree, c: Cell, p: Ptr)
    requires Memory(s) && Links(s, s', tr, c, p)
    ensures Memory(s')
  {
    forall q ensures NodeMemory(s', q) { assert NodeMemory(s, q); }
    forall q, r ensures Apart(s', q, r) { assert Apart(s, q, r); }
    forall k ensures LinkMemory(s', k) { assert LinkMemory(s, k); }
    forall k, d ensures Unshared(s', k, d) { assert Unshared(s, k, d); }
  }

  lemma LinkShape(s: State, s': State, tr: Tree, x: Key, c: Cell, p: Ptr, v: Value) returns (u: Tree)
    requires Memory(s) && Links(s, s', tr, c, p) && Shape(s, tr) && OnPath(tr, c, x)
    requires s.nodes[p].key == x && s.nodes[p].value in s.values && s.values[s.nodes[p].value] == v
    ensures u.box == c && Get(u, x) == Found(v)
    ensures Shape(s', Replace(tr, x, c, u))
    ensures Boxes(Replace(tr, x, c, u)) == Boxes(tr) + {s.nodes[p].left, s.nodes[p].right}
    ensures forall y :: y != x ==> Get(u, y) == Get(At(tr, x, c), y)
    ensures forall d, y {:trigger OnPath(At(tr, x, c), d, y)} :: OnPath(At(tr, x, c), d, y) ==> OnPath(u, d, y)
  {
    var n := s.nodes[p];
    PathCell(s, tr, c, x);
    AtFacts'(s, tr, c, x);
    assert NodeMemory(s, p);
    assert At(tr, x, c) == Leaf(c);
    u := Fork(c, x, v, Leaf(n.left), Leaf(n.right));
    assert Rep(View(s'), u.left) && Rep(View(s'), u.right);
    RepBoxes(View(s), tr);
    EditShape(s, s', tr, x, c, u);
  }

  lemma LinkOthers(s: State, s': State, tr: Tree, tr': Tree, c: Cell, p: Ptr, pc: Pc)
    requires Memory(s) && Links(s, s', tr, c, p) && Knows(s, tr, pc) && !Owns(pc, p)
    requires c in Boxes(tr) && Boxes(tr') == Boxes(tr) + {s.nodes[p].left, s.nodes[p].right}
    requires forall d, y {:trigger OnPath(tr, d, y)} :: OnPath(tr, d, y) ==> OnPath(tr', d, y)
    ensures Knows(s', tr', pc)
  {
    forall q | Owns(pc, q) && Private(s, tr, q) ensures Private(s', tr', q) {
      assert q != p && Apart(s, q, p);
    }
    KnowsFrame(s, s', tr, tr', pc);
  }

  lemma CasWins(s: State, t: Tid, c: Choice, s': State, tr: Tree) returns (tr': Tree)
    requires Inv(s, tr) && t in s.pcs && s.pcs[t].Cas? && Step(s, t, c) == Next(s')
    requires s.pcs[t].temp in s.links && s.links[s.pcs[t].temp] == s.pcs[t].ref
    ensures Refines(s, tr, s', tr', t)
  {
    var pc, pc' := s.pcs[t], s'.pcs[t];
    var op, x, temp, p := pc.op, pc.op.key, pc.temp, pc.p;
    assert Knows(s, tr, pc) && Owns(pc, p);
    CasOnNull(s, t, tr);
    PathCell(s, tr, temp, x);
    LinkKeepsMemory(s, s', tr, temp, p);
    var u := LinkShape(s, s', tr, x, temp, p, op.value);
    tr' := Replace(tr, x, temp, u);
    EditPaths(tr, x, temp, u);
    forall w | w in s.pcs && w != t ensures Knows(s', tr', s.pcs[w]) {
      assert Knows(s, tr, s.pcs[w]) && !Owns(s.pcs[w], p);
      LinkOthers(s, s', tr, tr', temp, p, s.pcs[w]);
    }
    NewOwner(s, t, s', p, pc');
    AbsThreads(s, tr, s', tr', t, pc');
    EditContents(tr, x, temp, u, op);
    assert Commits(F.Abs(s, tr), F.Abs(s', tr'), t);
  }

  lemma CasLoses(s: State, t: Tid, c: Choice, s': State, tr: Tree)
    requires Inv(s, tr) && t in s.pcs && s.pcs[t].Cas? && Step(s, t, c) == Next(s')
    requires s.pcs[t].temp in s.links && s.links[s.pcs[t].temp] != s.pcs[t].ref
    ensures Refines(s, tr, s', tr, t)
  {
    var pc, pc' := s.pcs[t], s'.pcs[t];
    assert Knows(s, tr, pc);
    AbsThreads(s, tr, s', tr, t, pc');
    QuietStep(s, t, s', tr, pc');
  }

  // ---- all steps ----

  /** No thread touches memory that is not allocated, or was freed. */
  lemma NoFault(s: State, t: Tid, c: Choice, tr: Tree)
    requires Inv(s, tr) && t in s.pcs
    ensures Step(s, t, c) != Fault
  {
    var pc := s.pcs[t];
    assert Knows(s, tr, pc);
    match pc {
      case Load(op, temp, _) => PathCell(s, tr, temp, op.key);
      case Branch(op, temp, tp, _) => SearchEnds(s, tr, temp, op.key);
      case Cas(op, temp, _, _) => PathCell(s, tr, temp, op.key);
      case Undo(_, _, p, _) => assert NodeMemory(s, p);
      case _ =>
    }
  }

  lemma EdgeKeeps(s: State, t: Tid, c: Choice, s': State, tr: Tree)
    requires Inv(s, tr) && t in s.pcs && (s.pcs[t].Idle? || s.pcs[t].Exit?) && Step(s, t, c) == Next(s')
    ensures Refines(s, tr, s', tr, t)
  {
    var pc, pc' := s.pcs[t], s'.pcs[t];
    AbsThreads(s, tr, s', tr, t, pc');
    QuietStep(s, t, s', tr, pc');
    if pc.Idle? {
      assert Invokes(F.Abs(s, tr), F.Abs(s', tr), t);
    } else {
      assert Returns(F.Abs(s, tr), F.Abs(s', tr), t);
    }
  }

  /** Every step keeps the invariant and is at most one step of the atomic map. */
  lemma StepRefines(s: State, t: Tid, c: Choice, s': State, tr: Tree) returns (tr': Tree)
    requires Inv(s, tr) && t in s.pcs && Step(s, t, c) == Next(s')
    ensures Refines(s, tr, s', tr', t)
  {
    tr' := tr;
    var pc := s.pcs[t];
    assert Knows(s, tr, pc);
    match pc {
      case Load(_, _, _) => LoadKeeps(s, t, c, s', tr);
      case Branch(op, temp, tp, _) =>
        SearchEnds(s, tr, temp, op.key);
        if s.nodes[tp].key != op.key {
          WalkKeeps(s, t, c, s', tr);
        } else if op.Insert? {
          tr' := StoreKeeps(s, t, c, s', tr);
        } else {
          ReadKeeps(s, t, c, s', tr);
        }
      case Build(_, _, _) => BuildKeeps(s, t, c, s', tr);
      case Cas(op, temp, _, ref) =>
        PathCell(s, tr, temp, op.key);
        if s.links[temp] == ref {
          tr' := CasWins(s, t, c, s', tr);
        } else {
          CasLoses(s, t, c, s', tr);
        }
      case Undo(_, _, _, _) => UndoKeeps(s, t, c, s', tr);
      case _ => EdgeKeeps(s, t, c, s', tr);
    }
  }
}
