/** Lock freedom of the lock-free BST: the steps that a thread needs for one call are
    bounded by the height of the tree and by what the other threads link meanwhile. */
module LockFreeTreeProgress {
  import opened AtomicMap
  import opened BoxTree
  import opened F = LockFreeTree
  import opened LockFreeTreeProofs
  import opened LockFreeTreeTheorems

  ghost predicate Filled(s: State, c: Cell) {
    c in s.links && s.links[c].To?
  }

  /** A bound on the steps that a thread has left until its call has returned, if no other
      thread links a node meanwhile. A stale `*ref` costs one more round, and so does a
      cell that has been filled since the thread saw NULL in it. */
  ghost function StepsLeft(s: State, tr: Tree, pc: Pc): nat {
    var stale := 4 * Stale(pc);
    match pc
    case Idle => 0
    case Load(op, temp, _) => 2 * Below(tr, op.key, temp) + 4 + stale
    case Branch(op, temp, _, _) => 2 * Below(tr, op.key, temp) + 3 + stale
    case Build(op, temp, _) => if Filled(s, temp) then 2 * Below(tr, op.key, temp) + 11 else 3 + stale
    case Cas(op, temp, _, _) => if Filled(s, temp) then 2 * Below(tr, op.key, temp) + 10 else 2 + stale
    case Undo(op, temp, _, _) => 2 * Below(tr, op.key, temp) + 5 + stale
    case Exit(_, _) => 1
  }

  // ---- how the tree grows ----

  /** Links that are not NULL stay, and `d` says whether a leaf may have got a node. */
  ghost predicate OnlyGrows(s: State, s': State, d: nat) {
    && (forall k <- s.links :: s.links[k].To? ==>
          && Filled(s', k) && s'.links[k] == s.links[k] && s.links[k].ptr in s.nodes && s.links[k].ptr in s'.nodes
          && s'.nodes[s.links[k].ptr] == s.nodes[s.links[k].ptr])
    && (forall k <- s.links :: s.links[k].Null? && Filled(s', k) ==> d == 1 && NewLeafNode(s', s'.links[k].ptr))
  }

  /** A node with nothing below it. */
  ghost predicate NewLeafNode(s: State, p: Ptr) {
    p in s.nodes && !Filled(s, s.nodes[p].left) && !Filled(s, s.nodes[p].right)
  }

  lemma StepGrows(s: State, t: Tid, c: Choice, s': State)
    requires Good(s) && t in s.pcs && Step(s, t, c) == Next(s')
    ensures OnlyGrows(s, s', if Wins(s, t) then 1 else 0)
  {
    LinksOnlyFill(s, t, c, s');
    if Wins(s, t) {
      var tr, pc := TreeOf(s), s.pcs[t];
      assert Knows(s, tr, pc);
      PathCell(s, tr, pc.temp, pc.op.key);
      WonNode(s, t, c, s', tr);
    }
  }

  lemma WonNode(s: State, t: Tid, c: Choice, s': State, tr: Tree)
    requires t in s.pcs && Step(s, t, c) == Next(s') && Wins(s, t) && s.pcs[t].temp in Boxes(tr)
    requires Private(s, tr, s.pcs[t].p)
    ensures NewLeafNode(s', s.pcs[t].p)
  {
  }

  /** A subtree gets at most as much higher as one leaf that got a node. */
  lemma {:induction false} GrownHeight(s: State, s': State, t: Tree, t': Tree, d: nat)
    requires Rep(View(s), t) && Rep(View(s'), t') && t.box == t'.box && OnlyGrows(s, s', d)
    ensures Height(t') <= Height(t) + d
    decreases t
  {
    if t.Fork? {
      GrownHeight(s, s', t.left, t'.left, d);
      GrownHeight(s, s', t.right, t'.right, d);
    } else if t'.Fork? {
      assert t'.left.Leaf? && t'.right.Leaf?;
    }
  }

  lemma {:induction false} GrownBelow(s: State, s': State, t: Tree, t': Tree, x: Key, c: Cell, d: nat)
    requires Rep(View(s), t) && Rep(View(s'), t') && t.box == t'.box && OnlyGrows(s, s', d)
    requires OnPath(t, c, x)
    ensures OnPath(t', c, x) && Height(At(t', x, c)) <= Height(At(t, x, c)) + d
    decreases t
  {
    if c == t.box {
      GrownHeight(s, s', t, t', d);
    } else if x < t.key {
      GrownBelow(s, s', t.left, t'.left, x, c, d);
    } else {
      GrownBelow(s, s', t.right, t'.right, x, c, d);
    }
  }

  /** What one step means for a cell on somebody's search path. */
  lemma CellLater(s: State, t: Tid, c: Choice, s': State, tr: Tree, tr': Tree, x: Key, k: Cell)
    requires Inv(s, tr) && Inv(s', tr') && t in s.pcs && Step(s, t, c) == Next(s') && OnPath(tr, k, x)
    ensures Below(tr', x, k) <= Below(tr, x, k) + if Wins(s, t) then 1 else 0
    ensures Filled(s, k) ==> Filled(s', k)
    ensures Filled(s', k) ==> Filled(s, k) || Wins(s, t)
  {
    StepGrows(s, t, c, s');
    GrownBelow(s, s', tr, tr', x, k, if Wins(s, t) then 1 else 0);
    PathCell(s, tr, k, x);
  }

  /** A cell that is NULL has nothing below it. */
  lemma NothingBelow(s: State, tr: Tree, x: Key, k: Cell)
    requires Inv(s, tr) && OnPath(tr, k, x)
    ensures Filled(s, k) <==> Below(tr, x, k) > 0
  {
    PathCell(s, tr, k, x);
    AtFacts'(s, tr, k, x);
  }

  // ---- a thread's own steps ----

  lemma NextIsBelow(s: State, tr: Tree, k: Cell, x: Key)
    requires Inv(s, tr) && OnPath(tr, k, x) && Filled(s, k) && s.links[k].ptr in s.nodes
    requires s.nodes[s.links[k].ptr].key != x
    ensures
      var n := s.nodes[s.links[k].ptr];
      var next := if x < n.key then n.left else n.right;
      OnPath(tr, next, x) && Below(tr, x, next) < Below(tr, x, k)
  {
    PathCell(s, tr, k, x);
    AtFacts'(s, tr, k, x);
    var sub := At(tr, x, k);
    var side := if x < sub.key then sub.left else sub.right;
    AtAt(tr, x, k, side.box);
  }

  lemma LoadCloser(s: State, t: Tid, c: Choice, s': State, tr: Tree, tr': Tree)
    requires Inv(s, tr) && Inv(s', tr') && t in s.pcs && s.pcs[t].Load? && Step(s, t, c) == Next(s') && t in s'.pcs
    ensures StepsLeft(s', tr', s'.pcs[t]) < StepsLeft(s, tr, s.pcs[t])
  {
    assert Knows(s, tr, s.pcs[t]);
    CellLater(s, t, c, s', tr, tr', s.pcs[t].op.key, s.pcs[t].temp);
    NothingBelow(s, tr, s.pcs[t].op.key, s.pcs[t].temp);
  }

  lemma BuildCloser(s: State, t: Tid, c: Choice, s': State, tr: Tree, tr': Tree)
    requires Inv(s, tr) && Inv(s', tr') && t in s.pcs && s.pcs[t].Build? && Step(s, t, c) == Next(s') && t in s'.pcs
    ensures StepsLeft(s', tr', s'.pcs[t]) < StepsLeft(s, tr, s.pcs[t])
  {
    assert Knows(s, tr, s.pcs[t]);
    CellLater(s, t, c, s', tr, tr', s.pcs[t].op.key, s.pcs[t].temp);
  }

  lemma UndoCloser(s: State, t: Tid, c: Choice, s': State, tr: Tree, tr': Tree)
    requires Inv(s, tr) && Inv(s', tr') && t in s.pcs && s.pcs[t].Undo? && Step(s, t, c) == Next(s') && t in s'.pcs
    ensures StepsLeft(s', tr', s'.pcs[t]) < StepsLeft(s, tr, s.pcs[t])
  {
    assert Knows(s, tr, s.pcs[t]);
    CellLater(s, t, c, s', tr, tr', s.pcs[t].op.key, s.pcs[t].temp);
  }

  lemma BranchCloser(s: State, t: Tid, c: Choice, s': State, tr: Tree, tr': Tree)
    requires Inv(s, tr) && Inv(s', tr') && t in s.pcs && s.pcs[t].Branch? && Step(s, t, c) == Next(s') && t in s'.pcs
    ensures StepsLeft(s', tr', s'.pcs[t]) < StepsLeft(s, tr, s.pcs[t])
  {
    var x, temp := s.pcs[t].op.key, s.pcs[t].temp;
    assert Knows(s, tr, s.pcs[t]);
    if s'.pcs[t].Load? {
      NextIsBelow(s, tr, temp, x);
      CellLater(s, t, c, s', tr, tr', x, s'.pcs[t].temp);
    }
  }

  lemma CasCloser(s: State, t: Tid, c: Choice, s': State, tr: Tree, tr': Tree)
    requires Inv(s, tr) && Inv(s', tr') && t in s.pcs && s.pcs[t].Cas? && Step(s, t, c) == Next(s') && t in s'.pcs
    ensures StepsLeft(s', tr', s'.pcs[t]) < StepsLeft(s, tr, s.pcs[t])
  {
    var x, temp := s.pcs[t].op.key, s.pcs[t].temp;
    assert Knows(s, tr, s.pcs[t]);
    if s'.pcs[t].Undo? {
      CellLater(s, t, c, s', tr, tr', x, temp);
      NothingBelow(s, tr, x, temp);
    }
  }

  /** Each step of a thread leaves it fewer steps to its return. */
  lemma OwnCloser(s: State, t: Tid, c: Choice, s': State, tr: Tree, tr': Tree)
    requires Inv(s, tr) && Inv(s', tr') && t in s.pcs && !s.pcs[t].Idle? && Step(s, t, c) == Next(s') && t in s'.pcs
    ensures StepsLeft(s', tr', s'.pcs[t]) < StepsLeft(s, tr, s.pcs[t])
  {
    var pc := s.pcs[t];
    match pc {
      case Idle =>
      case Exit(_, _) =>
      case Branch(_, _, _, _) => BranchCloser(s, t, c, s', tr, tr');
      case Load(_, _, _) => LoadCloser(s, t, c, s', tr, tr');
      case Build(_, _, _) => BuildCloser(s, t, c, s', tr, tr');
      case Cas(_, _, _, _) => CasCloser(s, t, c, s', tr, tr');
      case Undo(_, _, _, _) => UndoCloser(s, t, c, s', tr, tr');
    }
  }

  // ---- the steps of the others ----

  /** A step of another thread costs nothing, but for one that links a node. */
  lemma OthersCost(s: State, t: Tid, v: Tid, c: Choice, s': State, tr: Tree, tr': Tree)
    requires Inv(s, tr) && Inv(s', tr') && t in s.pcs && v in s.pcs && v != t && Step(s, v, c) == Next(s')
    ensures t in s'.pcs
    ensures StepsLeft(s', tr', s'.pcs[t]) <= StepsLeft(s, tr, s.pcs[t]) + if Wins(s, v) then 10 else 0
  {
    OtherStep(s, t, v, c, s');
    var pc := s.pcs[t];
    assert Knows(s, tr, pc);
    if !pc.Idle? && !pc.Exit? {
      CellLater(s, v, c, s', tr, tr', pc.op.key, pc.temp);
      NothingBelow(s, tr, pc.op.key, pc.temp);
    }
  }

  // ---- whole runs ----

  ghost function CountOwn(who: seq<Tid>, i: nat, n: nat, t: Tid): nat
    requires i <= n <= |who|
  {
    if n == i then 0 else CountOwn(who, i, n - 1, t) + if who[n - 1] == t then 1 else 0
  }

  /** Thread `t` is inside one call from state i to state n. */
  ghost predicate InCall(ss: seq<State>, i: nat, n: nat, t: Tid) {
    i <= n < |ss| && forall k :: i <= k < n ==> t in ss[k].pcs && !ss[k].pcs[t].Idle?
  }

  lemma OwnStep(s: State, t: Tid, c: Choice, s': State)
    requires t in s.pcs && Step(s, t, c) == Next(s')
    ensures t in s'.pcs
  {
  }

  /** Lock freedom, call by call: the steps that a thread takes inside a call, and those
      it has left, are never more than the height of the tree allows and ten for each
      node that another thread has linked meanwhile. */
  lemma {:induction false} StepsPaid(ss: seq<State>, who: seq<Tid>, cs: seq<Choice>, i: nat, n: nat, t: Tid)
    requires Execution(ss, who, cs) && InCall(ss, i, n, t) && t in ss[i].pcs
    ensures Good(ss[i]) && Good(ss[n]) && t in ss[n].pcs
    ensures CountWinsOfOthers(ss, who, i, t) <= CountWinsOfOthers(ss, who, n, t)
    ensures CountOwn(who, i, n, t) + StepsLeft(ss[n], TreeOf(ss[n]), ss[n].pcs[t])
      <= StepsLeft(ss[i], TreeOf(ss[i]), ss[i].pcs[t])
         + 10 * (CountWinsOfOthers(ss, who, n, t) - CountWinsOfOthers(ss, who, i, t))
    decreases n
  {
    RunGood(ss, who, cs, n);
    if i < n {
      StepsPaid(ss, who, cs, i, n - 1, t);
      StepPaid(ss[n - 1], who[n - 1], cs[n - 1], ss[n], t) by {
        assert Step(ss[n - 1], who[n - 1], cs[n - 1]) == Next(ss[n - 1 + 1]);
      }
    }
  }

  lemma StepPaid(s: State, v: Tid, c: Choice, s': State, t: Tid)
    requires Good(s) && Good(s') && v in s.pcs && t in s.pcs && !s.pcs[t].Idle? && Step(s, v, c) == Next(s')
    ensures t in s'.pcs
    ensures (if v == t then 1 else 0) + StepsLeft(s', TreeOf(s'), s'.pcs[t])
      <= StepsLeft(s, TreeOf(s), s.pcs[t]) + if v != t && Wins(s, v) then 10 else 0
  {
    if v == t {
      OwnStep(s, t, c, s');
      OwnCloser(s, t, c, s', TreeOf(s), TreeOf(s'));
    } else {
      OthersCost(s, t, v, c, s', TreeOf(s), TreeOf(s'));
    }
  }

  /** A call that begins in state i: two steps a level and four more, and ten for each
      node linked by others before it has returned. */
  lemma CallIsBounded(ss: seq<State>, who: seq<Tid>, cs: seq<Choice>, i: nat, n: nat, t: Tid)
    requires Execution(ss, who, cs) && i < n < |ss| && who[i] == t && ss[i].pcs[t].Idle? && InCall(ss, i + 1, n, t)
    ensures Good(ss[i]) && CountWinsOfOthers(ss, who, i, t) <= CountWinsOfOthers(ss, who, n, t)
    ensures CountOwn(who, i + 1, n, t)
      <= 2 * Height(TreeOf(ss[i])) + 4 + 10 * (CountWinsOfOthers(ss, who, n, t) - CountWinsOfOthers(ss, who, i, t))
  {
    RunGood(ss, who, cs, i);
    RunGood(ss, who, cs, i + 1);
    assert Step(ss[i], who[i], cs[i]) == Next(ss[i + 1]);
    CallHeight(ss[i], t, cs[i], ss[i + 1]);
    StepsPaid(ss, who, cs, i + 1, n, t);
  }

  lemma CallHeight(s: State, t: Tid, c: Choice, s': State)
    requires Good(s) && Good(s') && t in s.pcs && s.pcs[t].Idle? && Step(s, t, c) == Next(s') && t in s'.pcs
    ensures StepsLeft(s', TreeOf(s'), s'.pcs[t]) <= 2 * Height(TreeOf(s)) + 4
  {
    var tr := TreeOf(s);
    CellLater(s, t, c, s', tr, TreeOf(s'), c.op.key, s.root);
  }

  lemma Unused(used: set<nat>) returns (p: nat)
    ensures forall b <- used :: b < p
  {
    p := 0;
    var rest := used;
    while rest != {}
      invariant rest <= used
      invariant forall b <- used :: b !in rest ==> b < p
    {
      var b :| b in rest;
      if p <= b { p := b + 1; }
      rest := rest - {b};
    }
  }

  /** A thread inside a call is never kept waiting. */
  lemma NeverWaits(ss: seq<State>, who: seq<Tid>, cs: seq<Choice>, n: nat, t: Tid)
    requires Execution(ss, who, cs) && n < |ss| && t in ss[n].pcs && !ss[n].pcs[t].Idle?
    ensures exists c :: Step(ss[n], t, c).Next?
  {
    RunGood(ss, who, cs, n);
    var s := ss[n];
    var p := Unused(s.nodes.Keys);
    var v := Unused(s.values.Keys);
    var l := Unused(s.links.Keys);
    var c := Choice(Lookup(0), p, v, l, l + 1);
    assert Step(s, t, c) != Fault;
    assert Step(s, t, c).Next?;
  }
}
