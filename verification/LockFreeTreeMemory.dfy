/** The lock-free BST loses no memory: whatever has been allocated is in the tree, or is
    the node of a thread that is about to publish it or to free it again. */
module LockFreeTreeMemory {
  import opened AtomicMap
  import opened BoxTree
  import opened F = LockFreeTree
  import opened LockFreeTreeProofs
  import opened LockFreeTreeTheorems
  import opened LockFreeTreeProgress

  ghost predicate Owned(s: State, p: Ptr) {
    exists u :: u in s.pcs && Owns(s.pcs[u], p)
  }

  /** Node `p` is in the tree. */
  ghost predicate Linked(s: State, tr: Tree, p: Ptr) {
    exists c :: c in Boxes(tr) && c in s.links && s.links[c] == To(p)
  }

  ghost predicate NodeUsed(s: State, tr: Tree, p: Ptr) {
    p in s.nodes ==> Linked(s, tr, p) || Owned(s, p)
  }

  ghost predicate CellOf(s: State, p: Ptr, k: Cell) {
    p in s.nodes && (k == s.nodes[p].left || k == s.nodes[p].right)
  }

  ghost predicate LinkUsed(s: State, tr: Tree, k: Cell) {
    k in s.links ==> k in Boxes(tr) || exists p :: CellOf(s, p, k) && Owned(s, p)
  }

  ghost predicate ValueUsed(s: State, v: Cell) {
    v in s.values ==> exists p :: p in s.nodes && s.nodes[p].value == v
  }

  ghost predicate NothingLost(s: State, tr: Tree) {
    && (forall p {:trigger NodeUsed(s, tr, p)} :: NodeUsed(s, tr, p))
    && (forall k {:trigger LinkUsed(s, tr, k)} :: LinkUsed(s, tr, k))
    && (forall v {:trigger ValueUsed(s, v)} :: ValueUsed(s, v))
  }

  lemma {:induction false} GrownBoxes(s: State, s': State, t: Tree, t': Tree, d: nat)
    requires Rep(View(s), t) && Rep(View(s'), t') && t.box == t'.box && OnlyGrows(s, s', d)
    ensures Boxes(t) <= Boxes(t')
    decreases t
  {
    if t.Fork? {
      GrownBoxes(s, s', t.left, t'.left, d);
      GrownBoxes(s, s', t.right, t'.right, d);
    }
  }

  lemma TreeKeepsBoxes(s: State, t: Tid, c: Choice, s': State, tr: Tree, tr': Tree)
    requires Inv(s, tr) && Inv(s', tr') && t in s.pcs && Step(s, t, c) == Next(s')
    ensures Boxes(tr) <= Boxes(tr')
  {
    StepGrows(s, t, c, s');
    SameRoot(s, t, c, s');
    GrownBoxes(s, s', tr, tr', if Wins(s, t) then 1 else 0);
  }

  lemma SameRoot(s: State, t: Tid, c: Choice, s': State)
    requires t in s.pcs && Step(s, t, c) == Next(s')
    ensures s'.root == s.root
  {
  }

  /** The links of a node in the tree are in the tree. */
  lemma {:induction false} ChildCells(s: State, t: Tree, c: Cell, k: Cell)
    requires Rep(View(s), t) && c in Boxes(t) && Filled(s, c) && CellOf(s, s.links[c].ptr, k)
    ensures k in Boxes(t)
    decreases t
  {
    BoxInBoxes(t);
    if t.Fork? {
      BoxInBoxes(t.left);
      BoxInBoxes(t.right);
      if c in Boxes(t.left) {
        ChildCells(s, t.left, c, k);
      } else if c in Boxes(t.right) {
        ChildCells(s, t.right, c, k);
      }
    }
  }

  /** Who owns a node after a step: whoever owned it before, the maker of a new node, but
      no longer a thread that published or freed it. */
  lemma OwnerStays(s: State, t: Tid, c: Choice, s': State, p: Ptr)
    requires t in s.pcs && Step(s, t, c) == Next(s') && Owned(s, p)
    ensures Owned(s', p) || (Owns(s.pcs[t], p) && (Wins(s, t) || s.pcs[t].Undo?))
  {
    var u :| u in s.pcs && Owns(s.pcs[u], p);
    assert u in s'.pcs && (u != t ==> s'.pcs[u] == s.pcs[u]);
    if u == t { OwnStaysOwn(s, t, c, s'); }
  }

  lemma OwnStaysOwn(s: State, t: Tid, c: Choice, s': State)
    requires t in s.pcs && (s.pcs[t].Cas? || s.pcs[t].Undo?) && Step(s, t, c) == Next(s') && t in s'.pcs
    ensures s.pcs[t].Cas? && !Wins(s, t) ==> Owns(s'.pcs[t], s.pcs[t].p)
  {
  }

  /** The memory that a step adds or takes away. */
  lemma StepMemory(s: State, t: Tid, c: Choice, s': State, p: Ptr, k: Cell, v: Cell)
    requires t in s.pcs && t in s'.pcs && Step(s, t, c) == Next(s')
    ensures !s.pcs[t].Build? ==> s'.nodes.Keys <= s.nodes.Keys && s'.links.Keys <= s.links.Keys && s'.values.Keys <= s.values.Keys
    ensures p in s'.nodes && p in s.nodes ==> s'.nodes[p] == s.nodes[p]
    ensures p in s.nodes && !s.pcs[t].Undo? ==> p in s'.nodes
    ensures s.pcs[t].Build? ==> s'.pcs[t].Cas? && s'.pcs[t].p == c.p && c.p in s'.nodes
    ensures s.pcs[t].Build? && p in s'.nodes ==> p in s.nodes || p == c.p
    ensures s.pcs[t].Build? && k in s'.links ==> k in s.links || CellOf(s', c.p, k)
    ensures s.pcs[t].Build? && v in s'.values ==> v in s.values || s'.nodes[c.p].value == v
  {
  }

  /** What is freed is one node with its three cells. */
  lemma FreedMemory(s: State, t: Tid, c: Choice, s': State)
    requires t in s.pcs && s.pcs[t].Undo? && Step(s, t, c) == Next(s')
    ensures s.pcs[t].p in s.nodes && s'.nodes == s.nodes - {s.pcs[t].p}
    ensures s'.links == s.links - {s.nodes[s.pcs[t].p].left, s.nodes[s.pcs[t].p].right}
    ensures s'.values == s.values - {s.nodes[s.pcs[t].p].value}
  {
  }

  lemma NodesStayUsed(s: State, t: Tid, c: Choice, s': State, tr: Tree, tr': Tree, p: Ptr)
    requires Inv(s, tr) && Inv(s', tr') && t in s.pcs && t in s'.pcs && Step(s, t, c) == Next(s') && NodeUsed(s, tr, p)
    ensures NodeUsed(s', tr', p)
  {
    StepMemory(s, t, c, s', p, 0, 0);
    if p in s'.nodes {
      if p !in s.nodes {
        assert Owns(s'.pcs[t], p);
      } else if Linked(s, tr, p) {
        LinkStays(s, t, c, s', tr, tr', p);
      } else {
        OwnerStays(s, t, c, s', p);
        if s.pcs[t].Undo? {
          FreedMemory(s, t, c, s');
        } else if !Owned(s', p) {
          WonIsLinked(s, t, c, s', tr, tr');
        }
      }
    }
  }

  lemma LinkStays(s: State, t: Tid, c: Choice, s': State, tr: Tree, tr': Tree, p: Ptr)
    requires Inv(s, tr) && Inv(s', tr') && t in s.pcs && Step(s, t, c) == Next(s') && Linked(s, tr, p)
    ensures Linked(s', tr', p)
  {
    var k :| k in Boxes(tr) && k in s.links && s.links[k] == To(p);
    StepGrows(s, t, c, s');
    TreeKeepsBoxes(s, t, c, s', tr, tr');
    assert k in Boxes(tr') && Filled(s', k);
  }

  lemma WonIsLinked(s: State, t: Tid, c: Choice, s': State, tr: Tree, tr': Tree)
    requires Inv(s, tr) && Inv(s', tr') && t in s.pcs && Step(s, t, c) == Next(s') && Wins(s, t)
    ensures Linked(s', tr', s.pcs[t].p)
  {
    assert Knows(s, tr, s.pcs[t]);
    PathCell(s, tr, s.pcs[t].temp, s.pcs[t].op.key);
    TreeKeepsBoxes(s, t, c, s', tr, tr');
    LinksOnlyFill(s, t, c, s');
  }

  lemma LinksStayUsed(s: State, t: Tid, c: Choice, s': State, tr: Tree, tr': Tree, k: Cell)
    requires Inv(s, tr) && Inv(s', tr') && t in s.pcs && t in s'.pcs && Step(s, t, c) == Next(s') && LinkUsed(s, tr, k)
    ensures LinkUsed(s', tr', k)
  {
    StepMemory(s, t, c, s', 0, k, 0);
    if k in s'.links {
      if k !in s.links {
        assert CellOf(s', c.p, k) && Owns(s'.pcs[t], c.p);
      } else if k in Boxes(tr) {
        TreeKeepsBoxes(s, t, c, s', tr, tr');
      } else {
        var p :| CellOf(s, p, k) && Owned(s, p);
        OwnedCellStays(s, t, c, s', tr, tr', p, k);
      }
    }
  }

  lemma OwnedCellStays(s: State, t: Tid, c: Choice, s': State, tr: Tree, tr': Tree, p: Ptr, k: Cell)
    requires Inv(s, tr) && Inv(s', tr') && t in s.pcs && t in s'.pcs && Step(s, t, c) == Next(s')
    requires CellOf(s, p, k) && Owned(s, p) && k in s'.links
    ensures LinkUsed(s', tr', k)
  {
    StepMemory(s, t, c, s', p, k, 0);
    OwnerStays(s, t, c, s', p);
    if s.pcs[t].Undo? { FreedMemory(s, t, c, s'); }
    if Owned(s', p) {
      assert p in s'.nodes ==> CellOf(s', p, k);
      if p !in s'.nodes { OwnedExists(s', tr', p); }
    } else if Wins(s, t) {
      WonIsLinked(s, t, c, s', tr, tr');
      var d :| d in Boxes(tr') && d in s'.links && s'.links[d] == To(p);
      ChildCells(s', tr', d, k);
    }
  }

  lemma OwnedExists(s: State, tr: Tree, p: Ptr)
    requires Inv(s, tr) && Owned(s, p)
    ensures p in s.nodes
  {
    var u :| u in s.pcs && Owns(s.pcs[u], p);
    assert Knows(s, tr, s.pcs[u]);
  }

  lemma ValuesStayUsed(s: State, t: Tid, c: Choice, s': State, v: Cell)
    requires t in s.pcs && t in s'.pcs && Step(s, t, c) == Next(s') && ValueUsed(s, v)
    ensures ValueUsed(s', v)
  {
    StepMemory(s, t, c, s', 0, 0, v);
    if v in s'.values && v in s.values {
      var p :| p in s.nodes && s.nodes[p].value == v;
      StepMemory(s, t, c, s', p, 0, v);
      if s.pcs[t].Undo? { FreedMemory(s, t, c, s'); }
    }
  }

  lemma StepLosesNothing(s: State, t: Tid, c: Choice, s': State, tr: Tree, tr': Tree)
    requires Inv(s, tr) && Inv(s', tr') && t in s.pcs && t in s'.pcs && Step(s, t, c) == Next(s') && NothingLost(s, tr)
    ensures NothingLost(s', tr')
  {
    forall p ensures NodeUsed(s', tr', p) {
      assert NodeUsed(s, tr, p);
      NodesStayUsed(s, t, c, s', tr, tr', p);
    }
    forall k ensures LinkUsed(s', tr', k) {
      assert LinkUsed(s, tr, k);
      LinksStayUsed(s, t, c, s', tr, tr', k);
    }
    forall v ensures ValueUsed(s', v) {
      assert ValueUsed(s, v);
      ValuesStayUsed(s, t, c, s', v);
    }
  }

  /** In every state of every run, failed CASes included, no memory is lost. */
  lemma {:induction false} NoLeak(ss: seq<State>, who: seq<Tid>, cs: seq<Choice>, n: nat)
    requires Execution(ss, who, cs) && n < |ss|
    ensures Good(ss[n]) && NothingLost(ss[n], TreeOf(ss[n]))
  {
    RunGood(ss, who, cs, n);
    if n == 0 {
      InitInv(ss[0]);
      TreeOfIs(ss[0], Leaf(ss[0].root));
    } else {
      NoLeak(ss, who, cs, n - 1);
      assert Step(ss[n - 1], who[n - 1], cs[n - 1]) == Next(ss[n - 1 + 1]);
      OwnStep(ss[n - 1], who[n - 1], cs[n - 1], ss[n]);
      StepLosesNothing(ss[n - 1], who[n - 1], cs[n - 1], ss[n], TreeOf(ss[n - 1]), TreeOf(ss[n]));
    }
  }

  /** With all threads between calls, the tree is all that is left. */
  lemma OnlyTheTree(ss: seq<State>, who: seq<Tid>, cs: seq<Choice>, n: nat)
    requires Execution(ss, who, cs) && n < |ss| && forall t <- ss[n].pcs :: ss[n].pcs[t].Idle?
    ensures Good(ss[n]) && ss[n].links.Keys == Boxes(TreeOf(ss[n]))
    ensures forall p <- ss[n].nodes :: Linked(ss[n], TreeOf(ss[n]), p)
    ensures forall v <- ss[n].values :: exists p :: p in ss[n].nodes && ss[n].nodes[p].value == v
  {
    NoLeak(ss, who, cs, n);
    var s, tr := ss[n], TreeOf(ss[n]);
    forall k | k in s.links ensures k in Boxes(tr) { assert LinkUsed(s, tr, k); }
    RepBoxes(View(s), tr);
    forall p | p in s.nodes ensures Linked(s, tr, p) { assert NodeUsed(s, tr, p); }
    forall v | v in s.values ensures exists p :: p in s.nodes && s.nodes[p].value == v { assert ValueUsed(s, v); }
  }
}
