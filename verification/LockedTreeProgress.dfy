/** Every call on the locking BST ends: a thread that nobody stands in the way of is done
    within a number of steps that the height of the tree bounds, and its call then has
    had its effect. */
module LockedTreeProgress {
  import opened AtomicMap
  import opened BoxTree
  import opened LockedTree
  import opened LockedTreeProofs
  import opened LockedTreeTheorems

  /** The height of the right subtree at a box: how many rotations are still ahead. */
  ghost function RightBelow(tr: Tree, x: Key, b: Box): nat {
    if OnPath(tr, b, x) && At(tr, x, b).Fork? then Height(At(tr, x, b).right) else 0
  }

  /** A bound on the steps that a thread has left until its call has returned. */
  ghost function StepsLeft(tr: Tree, pc: Pc): nat {
    match pc
    case Idle => 0
    case Enter(_) => 4 * Height(tr) + 4
    case Look(op, b) => 4 * Below(tr, op.key, b) + 3
    case Reach(op, _, c) => 4 * Below(tr, op.key, c) + 5
    case Cross(op, _, c) => 4 * Below(tr, op.key, c) + 4
    case Exit(_, _, _) => 1
    case Push(op, b) => 4 * RightBelow(tr, op.key, b) + 6
    case PushReach(op, b, _) => 4 * RightBelow(tr, op.key, b) + 5
    case PushTurn(op, b, _) => 4 * RightBelow(tr, op.key, b) + 4
    case PushCross(op, _, q) => 4 * RightBelow(tr, op.key, q) + 7
    case PushLeft(_, _, _, _) => 3
    case PushEnd(_, _, _, _) => 2
  }

  /** The child that a search goes to has a lower subtree. */
  lemma ChildBelowIt(h: Heap, tr: Tree, b: Box, x: Key, c: Box)
    requires Rep(h, tr) && Distinct(tr) && Sorted(tr) && OnPath(tr, b, x) && ChildFor(h, b, x, c)
    ensures Below(tr, x, c) < Below(tr, x, b)
  {
    AtFacts(tr, x, b, h);
    var sub := At(tr, x, b);
    var side := if x < sub.key then sub.left else sub.right;
    assert side.box == c && OnPath(side, c, x);
    OnPathInBoxes(side, c, x);
    AtAt(tr, x, b, c);
  }

  /** What is at the right of a box is lower than the box. */
  lemma RightIsBelow(tr: Tree, x: Key, b: Box)
    requires OnPath(tr, b, x) && At(tr, x, b).Fork?
    ensures RightBelow(tr, x, b) < Below(tr, x, b)
  {
  }

  /** The tree of a state in which the boxes are as before. */
  lemma SameTree(s: State, s': State, tr: Tree, tr': Tree)
    requires Inv(s, tr) && Inv(s', tr') && s'.boxes == s.boxes && s'.root == s.root
    ensures tr' == tr
  {
    RepUnique(s.boxes, tr, tr');
  }

  lemma LookCloser(s: State, t: Tid, c: Choice, s': State, tr: Tree, tr': Tree)
    requires Inv(s, tr) && Inv(s', tr') && t in s.pcs && s.pcs[t].Look? && Step(s, t, c) == Next(s') && t in s'.pcs
    ensures StepsLeft(tr', s'.pcs[t]) < StepsLeft(tr, s.pcs[t])
  {
    var op, b := s.pcs[t].op, s.pcs[t].b;
    assert Knows(s.boxes, tr, s.pcs[t]);
    if s'.pcs[t].Reach? {
      SameTree(s, s', tr, tr');
      ChildBelowIt(s.boxes, tr, b, op.key, s'.pcs[t].c);
    } else if s'.pcs[t].Push? {
      SameTree(s, s', tr, tr');
      PushChildren(s.boxes, tr, b, op.key);
      RightIsBelow(tr, op.key, b);
    }
  }

  /** A rotation leaves a lower right subtree below the doomed node. */
  lemma TurnCloser(s: State, t: Tid, c: Choice, s': State, tr: Tree, tr': Tree)
    requires Inv(s, tr) && Inv(s', tr') && t in s.pcs && s.pcs[t].PushTurn? && Step(s, t, c) == Next(s') && t in s'.pcs
    ensures StepsLeft(tr', s'.pcs[t]) < StepsLeft(tr, s.pcs[t])
  {
    var op, b, q := s.pcs[t].op, s.pcs[t].b, s.pcs[t].q;
    assert Knows(s.boxes, tr, s.pcs[t]);
    if s'.pcs[t].PushCross? {
      TurnedTree(s, t, c, s', tr, tr');
      TurnedBelow(s.boxes, tr, op, b, q);
    }
  }

  lemma TurnedTree(s: State, t: Tid, c: Choice, s': State, tr: Tree, tr': Tree)
    requires Inv(s, tr) && Inv(s', tr') && t in s.pcs && s.pcs[t].PushTurn? && Step(s, t, c) == Next(s')
    requires t in s'.pcs && s'.pcs[t].PushCross?
    ensures OnPath(tr, s.pcs[t].b, s.pcs[t].op.key) && HasNode(s.boxes, s.pcs[t].b, s.pcs[t].op.key)
    ensures s.boxes[s.pcs[t].b].node.right == s.pcs[t].q && s.pcs[t].q in s.boxes && s.boxes[s.pcs[t].q].Full?
    ensures s'.pcs[t] == PushCross(s.pcs[t].op, s.pcs[t].b, s.pcs[t].q)
    ensures
      var sub := At(tr, s.pcs[t].op.key, s.pcs[t].b);
      sub.Fork? && sub.right.Fork? && tr' == Replace(tr, s.pcs[t].op.key, s.pcs[t].b, TurnLeft(sub))
  {
    var op, b, q := s.pcs[t].op, s.pcs[t].b, s.pcs[t].q;
    assert Knows(s.boxes, tr, s.pcs[t]);
    RotateEdit(s.boxes, tr, op, b, q);
    var u := TurnLeft(At(tr, op.key, b));
    AtBoxes(tr, op.key, b);
    ReplaceRep(tr, op.key, b, u, s.boxes, s'.boxes);
    RepUnique(s'.boxes, tr', Replace(tr, op.key, b, u));
  }

  lemma TurnedBelow(h: Heap, tr: Tree, op: Op, b: Box, q: Box)
    requires op.Delete? && OnPath(tr, b, op.key) && Distinct(tr) && Sorted(tr) && Rep(h, tr) && HasNode(h, b, op.key)
    requires h[b].node.right == q && q in h && h[q].Full?
    ensures At(tr, op.key, b).Fork? && At(tr, op.key, b).right.Fork?
    ensures RightBelow(Replace(tr, op.key, b, TurnLeft(At(tr, op.key, b))), op.key, q) < RightBelow(tr, op.key, b)
  {
    var x := op.key;
    RotateShape(h, tr, x, b, q);
    var sub := At(tr, x, b);
    var u := TurnLeft(sub);
    var tr' := Replace(tr, x, b, u);
    AtReplaced(tr, x, b, u);
    ReplaceBoxes(tr, x, b, u);
    assert u.left.box == q && u.left.right == sub.right.left && OnPath(u, q, x);
    AtAt(tr', x, b, q);
  }

  lemma QuietCloser(s: State, t: Tid, c: Choice, s': State, tr: Tree, tr': Tree)
    requires Inv(s, tr) && Inv(s', tr') && t in s.pcs && Step(s, t, c) == Next(s') && t in s'.pcs
    requires !s.pcs[t].Idle? && !s.pcs[t].Look? && !s.pcs[t].PushTurn? && !s.pcs[t].PushEnd?
    ensures StepsLeft(tr', s'.pcs[t]) < StepsLeft(tr, s.pcs[t])
  {
    QuietBoxes(s, t, c, s');
    SameTree(s, s', tr, tr');
  }

  lemma QuietBoxes(s: State, t: Tid, c: Choice, s': State)
    requires t in s.pcs && Step(s, t, c) == Next(s')
    requires !s.pcs[t].Look? && !s.pcs[t].PushTurn? && !s.pcs[t].PushEnd?
    ensures s'.boxes == s.boxes && s'.root == s.root
  {
  }

  /** Each step of a thread leaves it fewer steps to its return. */
  lemma StepCloser(s: State, t: Tid, c: Choice, s': State, tr: Tree, tr': Tree)
    requires Inv(s, tr) && Inv(s', tr') && t in s.pcs && !s.pcs[t].Idle? && Step(s, t, c) == Next(s') && t in s'.pcs
    ensures StepsLeft(tr', s'.pcs[t]) < StepsLeft(tr, s.pcs[t])
  {
    if s.pcs[t].Look? {
      LookCloser(s, t, c, s', tr, tr');
    } else if s.pcs[t].PushTurn? {
      TurnCloser(s, t, c, s', tr, tr');
    } else if !s.pcs[t].PushEnd? {
      QuietCloser(s, t, c, s', tr, tr');
    }
  }

  // ---- a thread alone ----

  /** Steps of `t` alone, inside a call. */
  ghost predicate Alone(ss: seq<State>, t: Tid, cs: seq<Choice>) {
    && |ss| == |cs| + 1
    && forall k :: 0 <= k < |cs| ==>
         t in ss[k].pcs && !ss[k].pcs[t].Idle? && Step(ss[k], t, cs[k]) == Next(ss[k + 1])
  }

  lemma StepGood(s: State, t: Tid, c: Choice, s': State)
    requires Good(s) && t in s.pcs && Step(s, t, c) == Next(s')
    ensures Good(s') && t in s'.pcs && SpecStep(AbsOf(s), AbsOf(s'), t)
  {
    var tr' := StepRefines(s, t, c, s', TreeOf(s));
    TreeOfIs(s', tr');
    assert t in AbsOf(s').threads;
  }

  /** However the steps of a thread alone go, there are not more of them than the height
      of the tree allows: every call returns. */
  lemma {:induction false} AloneIsBounded(ss: seq<State>, t: Tid, cs: seq<Choice>)
    requires Alone(ss, t, cs) && Good(ss[0]) && t in ss[0].pcs
    ensures Good(ss[|cs|]) && t in ss[|cs|].pcs
    ensures |cs| + StepsLeft(TreeOf(ss[|cs|]), ss[|cs|].pcs[t]) <= StepsLeft(TreeOf(ss[0]), ss[0].pcs[t])
    decreases |cs|
  {
    if cs != [] {
      var n := |cs| - 1;
      AloneIsBounded(ss[..n + 1], t, cs[..n]);
      assert Step(ss[n], t, cs[n]) == Next(ss[n + 1]);
      StepGood(ss[n], t, cs[n], ss[n + 1]);
      StepCloser(ss[n], t, cs[n], ss[n + 1], TreeOf(ss[n]), TreeOf(ss[n + 1]));
    }
  }

  /** Nobody but `t` holds a lock. */
  ghost predicate OthersOut(s: State, t: Tid) {
    t in s.pcs && forall u <- s.pcs :: u != t ==> Held(s.pcs[u]) == {}
  }

  lemma NotItsOwn(s: State, tr: Tree, t: Tid)
    requires Inv(s, tr) && t in s.pcs
    ensures Awaited(s.root, s.pcs[t]) !! Held(s.pcs[t])
  {
    var pc := s.pcs[t];
    assert Knows(s.boxes, tr, pc);
    match pc {
      case Reach(op, b, c) => PushChildren(s.boxes, tr, b, op.key);
      case PushReach(op, b, q) => PushChildren(s.boxes, tr, b, op.key);
      case PushLeft(op, b, q, l) => PushChildren(s.boxes, tr, b, op.key);
      case _ =>
    }
  }

  lemma AloneCanStep(s: State, t: Tid)
    requires Good(s) && OthersOut(s, t) && !s.pcs[t].Idle?
    ensures CanStep(s, t)
  {
    var tr := TreeOf(s);
    NotItsOwn(s, tr, t);
    forall b | b in s.locks ensures b in Held(s.pcs[t]) {
      assert b in Held(s.pcs[s.locks[b]]);
    }
    FreeToStep(s, tr, t);
  }

  lemma OthersStayOut(s: State, t: Tid, c: Choice, s': State)
    requires OthersOut(s, t) && Step(s, t, c) == Next(s')
    ensures OthersOut(s', t)
  {
    assert t in s'.pcs && forall u <- s'.pcs :: u in s.pcs && (u != t ==> s'.pcs[u] == s.pcs[u]);
  }

  /** The map and the result when the call of a thread at this point has returned, if the
      others keep still. */
  ghost function MapAfter(m: map<Key, Value>, status: Status): map<Key, Value> {
    if status.Pending? then Effect(m, status.op) else m
  }

  ghost function ResultAfter(m: map<Key, Value>, status: Status): Value {
    match status
    case Ready => NULL
    case Pending(op) => Answer(m, op)
    case Done(_, r) => r
  }

  lemma StepKeepsOutcome(s: State, t: Tid, c: Choice, s': State)
    requires Good(s) && Good(s') && t in s.pcs && t in s'.pcs && !s.pcs[t].Idle? && !s.pcs[t].Exit?
    requires Step(s, t, c) == Next(s') && SpecStep(AbsOf(s), AbsOf(s'), t)
    ensures MapAfter(AbsOf(s').m, StatusOf(s'.pcs[t])) == MapAfter(AbsOf(s).m, StatusOf(s.pcs[t]))
    ensures ResultAfter(AbsOf(s').m, StatusOf(s'.pcs[t])) == ResultAfter(AbsOf(s).m, StatusOf(s.pcs[t]))
  {
    assert AbsOf(s).threads[t] == StatusOf(s.pcs[t]) && AbsOf(s').threads[t] == StatusOf(s'.pcs[t]);
  }

  lemma OneStepAlone(s: State, t: Tid) returns (s': State, c: Choice)
    requires Good(s) && OthersOut(s, t) && !s.pcs[t].Idle? && !s.pcs[t].Exit?
    ensures Step(s, t, c) == Next(s') && Good(s') && OthersOut(s', t) && !s'.pcs[t].Idle?
    ensures StepsLeft(TreeOf(s'), s'.pcs[t]) < StepsLeft(TreeOf(s), s.pcs[t])
    ensures MapAfter(AbsOf(s').m, StatusOf(s'.pcs[t])) == MapAfter(AbsOf(s).m, StatusOf(s.pcs[t]))
    ensures ResultAfter(AbsOf(s').m, StatusOf(s'.pcs[t])) == ResultAfter(AbsOf(s).m, StatusOf(s.pcs[t]))
  {
    AloneCanStep(s, t);
    c :| Step(s, t, c).Next?;
    s' := Step(s, t, c).state;
    OthersStayOut(s, t, c, s');
    StepGood(s, t, c, s');
    StepCloser(s, t, c, s', TreeOf(s), TreeOf(s'));
    StepKeepsOutcome(s, t, c, s');
    StaysInCall(s, t, c, s');
  }

  lemma StaysInCall(s: State, t: Tid, c: Choice, s': State)
    requires t in s.pcs && t in s'.pcs && !s.pcs[t].Idle? && !s.pcs[t].Exit? && Step(s, t, c) == Next(s')
    ensures !s'.pcs[t].Idle?
  {
  }

  /** Alone, a thread gets to the end of its call, and the call has then had its effect
      and its answer. */
  lemma {:induction false} Finishes(s: State, t: Tid) returns (ss: seq<State>, cs: seq<Choice>)
    requires Good(s) && OthersOut(s, t) && !s.pcs[t].Idle?
    ensures Alone(ss, t, cs) && ss[0] == s && |cs| < StepsLeft(TreeOf(s), s.pcs[t])
    ensures Good(ss[|cs|]) && t in ss[|cs|].pcs && ss[|cs|].pcs[t].Exit?
    ensures AbsOf(ss[|cs|]).m == MapAfter(AbsOf(s).m, StatusOf(s.pcs[t]))
    ensures ss[|cs|].pcs[t].result == ResultAfter(AbsOf(s).m, StatusOf(s.pcs[t]))
    decreases StepsLeft(TreeOf(s), s.pcs[t])
  {
    if s.pcs[t].Exit? {
      ss, cs := [s], [];
    } else {
      var s', c := OneStepAlone(s, t);
      var ss', cs' := Finishes(s', t);
      ss, cs := [s] + ss', [c] + cs';
      Prepend(s, ss', t, c, cs');
    }
  }

  lemma Prepend(s: State, ss: seq<State>, t: Tid, c: Choice, cs: seq<Choice>)
    requires Alone(ss, t, cs) && t in s.pcs && !s.pcs[t].Idle? && Step(s, t, c) == Next(ss[0])
    ensures Alone([s] + ss, t, [c] + cs) && ([s] + ss)[|cs| + 1] == ss[|cs|]
  {
  }

  /** A call on a tree that nobody else is at work in: it starts, it is at its return
      within four steps a level and three more, and it has done what the operation does. */
  lemma CallEnds(s: State, t: Tid, c: Choice) returns (ss: seq<State>, cs: seq<Choice>)
    requires Good(s) && OthersOut(s, t) && s.pcs[t].Idle?
    ensures Alone(ss, t, cs) && Step(s, t, c) == Next(ss[0]) && |cs| <= 4 * Height(TreeOf(s)) + 3
    ensures Good(ss[|cs|]) && t in ss[|cs|].pcs && ss[|cs|].pcs[t].Exit?
    ensures Contents(TreeOf(ss[|cs|])) == Effect(Contents(TreeOf(s)), c.op)
    ensures ss[|cs|].pcs[t].result == Answer(Contents(TreeOf(s)), c.op)
  {
    CallStarts(s, t, c);
    var s' := Step(s, t, c).state;
    StepGood(s, t, c, s');
    SameTree(s, s', TreeOf(s), TreeOf(s'));
    OthersStayOut(s, t, c, s');
    ss, cs := Finishes(s', t);
  }
}
