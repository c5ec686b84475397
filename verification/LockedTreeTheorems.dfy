/** What the locking BST guarantees in every run of any number of threads. */
module LockedTreeTheorems {
  import opened AtomicMap
  import opened BoxTree
  import opened LockedTree
  import opened LockedTreeProofs

  /** A run: `who[i]` takes the step from state i to state i + 1, with choice `cs[i]`. */
  ghost predicate Execution(ss: seq<State>, who: seq<Tid>, cs: seq<Choice>) {
    && |ss| == |who| + 1 && |cs| == |who| && Init(ss[0])
    && forall i :: 0 <= i < |who| ==>
         who[i] in ss[i].pcs && Step(ss[i], who[i], cs[i]) == Next(ss[i + 1])
  }

  ghost function AbsOf(s: State): Spec
    requires Good(s)
  {
    Abs(s, TreeOf(s))
  }

  lemma TreeOfIs(s: State, tr: Tree)
    requires Inv(s, tr)
    ensures Good(s) && TreeOf(s) == tr
  {
    RepUnique(s.boxes, TreeOf(s), tr);
  }

  lemma InitInv(s: State)
    requires Init(s)
    ensures Inv(s, Leaf(s.root)) && Abs(s, Leaf(s.root)).m == map[]
    ensures forall t <- s.pcs :: Abs(s, Leaf(s.root)).threads[t] == Ready
  {
  }

  /** In every state of a run the boxes form a sorted tree and no thread can fault. */
  lemma {:induction false} RunGood(ss: seq<State>, who: seq<Tid>, cs: seq<Choice>, n: nat)
    requires Execution(ss, who, cs) && n < |ss|
    ensures Good(ss[n])
    ensures forall t, c :: t in ss[n].pcs ==> Step(ss[n], t, c) != Fault
  {
    if n == 0 {
      InitInv(ss[0]);
    } else {
      RunGood(ss, who, cs, n - 1);
      assert Step(ss[n - 1], who[n - 1], cs[n - 1]) == Next(ss[n - 1 + 1]);
      var tr' := StepRefines(ss[n - 1], who[n - 1], cs[n - 1], ss[n], TreeOf(ss[n - 1]));
    }
    forall t, c | t in ss[n].pcs ensures Step(ss[n], t, c) != Fault {
      NoFault(ss[n], t, c, TreeOf(ss[n]));
    }
  }

  /** A step as its client sees it. */
  function EventOf(pc: Pc, c: Choice): Event {
    match pc
    case Idle => Called(c.op)
    case Exit(_, _, r) => Returned(r)
    case _ => Internal
  }

  ghost function EventsOf(ss: seq<State>, who: seq<Tid>, cs: seq<Choice>): (es: seq<Event>)
    requires Execution(ss, who, cs)
    ensures |es| == |who|
  {
    seq(|who|, i requires 0 <= i < |who| && who[i] in ss[i].pcs => EventOf(ss[i].pcs[who[i]], cs[i]))
  }

  /** A call starts the operation that the client asks for, at once. */
  lemma CallStarts(s: State, t: Tid, c: Choice)
    requires t in s.pcs && s.pcs[t].Idle?
    ensures Step(s, t, c).Next? && StatusOf(Step(s, t, c).state.pcs[t]) == Pending(c.op)
  {
  }

  /** Each step of the atomic map is the call, the return or the effect that the step of
      the locking BST is. */
  lemma StepLabelled(s: State, t: Tid, c: Choice, s': State)
    requires Good(s) && Good(s') && t in s.pcs && Step(s, t, c) == Next(s') && SpecStep(AbsOf(s), AbsOf(s'), t)
    ensures Labelled(AbsOf(s), AbsOf(s'), t, EventOf(s.pcs[t], c))
  {
    assert AbsOf(s).threads[t] == StatusOf(s.pcs[t]) && AbsOf(s').threads[t] == StatusOf(s'.pcs[t]);
    if s.pcs[t].Idle? { CallStarts(s, t, c); }
  }

  lemma RunLabelled(ss: seq<State>, who: seq<Tid>, cs: seq<Choice>, run: seq<Spec>)
    requires Execution(ss, who, cs) && |run| == |ss| && SpecRun(run, who)
    requires forall i :: 0 <= i < |ss| ==> Good(ss[i]) && run[i] == AbsOf(ss[i])
    ensures LabelledRun(run, who, EventsOf(ss, who, cs))
  {
    forall i | 0 <= i < |who| ensures Labelled(run[i], run[i + 1], who[i], EventsOf(ss, who, cs)[i]) {
      assert Step(ss[i], who[i], cs[i]) == Next(ss[i + 1]) && SpecStep(run[i], run[i + 1], who[i]);
      StepLabelled(ss[i], who[i], cs[i], ss[i + 1]);
    }
  }

  /** Linearizability: read through `AbsOf`, every run of the locking BST is a run of
      the atomic map that starts empty, step by step and by the same threads. */
  lemma {:induction false} Linearizable(ss: seq<State>, who: seq<Tid>, cs: seq<Choice>) returns (run: seq<Spec>)
    requires Execution(ss, who, cs)
    ensures |run| == |ss| && SpecRun(run, who) && run[0].m == map[]
    ensures forall i :: 0 <= i < |ss| ==> Good(ss[i]) && run[i] == AbsOf(ss[i])
    ensures LabelledRun(run, who, EventsOf(ss, who, cs))
  {
    forall i | 0 <= i < |ss| ensures Good(ss[i]) { RunGood(ss, who, cs, i); }
    run := seq(|ss|, i requires 0 <= i < |ss| && Good(ss[i]) => AbsOf(ss[i]));
    InitInv(ss[0]);
    TreeOfIs(ss[0], Leaf(ss[0].root));
    forall i | 0 <= i < |who| ensures SpecStep(run[i], run[i + 1], who[i]) {
      var tr' := StepRefines(ss[i], who[i], cs[i], ss[i + 1], TreeOf(ss[i]));
      TreeOfIs(ss[i + 1], tr');
    }
    RunLabelled(ss, who, cs, run);
  }

  /** The sequential execution that explains a run: replayed on an empty map, the log
      of effects gives the map that the final boxes hold and every answer on the way,
      and each call has exactly one entry between its invocation and its return. */
  lemma SequentialWitness(ss: seq<State>, who: seq<Tid>, cs: seq<Choice>)
      returns (run: seq<Spec>, log: seq<Call>)
    requires Execution(ss, who, cs)
    ensures |run| == |ss| && forall i :: 0 <= i < |ss| ==> Good(ss[i]) && run[i] == AbsOf(ss[i])
    ensures log == Log(run, who) && Sequential(map[], log)
    ensures Replay(map[], log) == Contents(TreeOf(ss[|who|]))
    ensures forall t <- ss[0].pcs :: OncePerCall(run, who, t)
    ensures forall n: nat | n <= |who| :: ExplainedAt(run, who, EventsOf(ss, who, cs), log, n)
    ensures forall i: nat | i < |log| :: SeesLastWrite(log, i)
  {
    run := Linearizable(ss, who, cs);
    log := Log(run, who);
    RunIsSequential(run, who);
    forall t | t in ss[0].pcs
      ensures OncePerCall(run, who, t)
    {
      assert t in AbsOf(ss[0]).threads;
      OneEffectPerCall(run, who, t);
    }
    forall n: nat | n <= |who| ensures ExplainedAt(run, who, EventsOf(ss, who, cs), log, n) {
      RunExplained(run, who, EventsOf(ss, who, cs), n);
    }
    forall i: nat | i < |log| ensures SeesLastWrite(log, i) {
      LookupsSeeLastWrite(log, i);
    }
  }

  /** The range invariant: the key of a thread inside an operation lies strictly
      between the keys of the ancestors of the box it has reached, whatever the others
      have inserted, rotated or unlinked since. */
  lemma SearchRange(s: State, t: Tid)
    requires Good(s) && t in s.pcs && !s.pcs[t].Idle? && !s.pcs[t].Enter?
    ensures s.pcs[t].b in Boxes(TreeOf(s)) && Range(TreeOf(s), s.pcs[t].b).Has(s.pcs[t].op.key)
  {
    var tr, pc := TreeOf(s), s.pcs[t];
    assert Knows(s.boxes, tr, pc);
    OnPathInBoxes(tr, pc.b, pc.op.key);
    RangeInvariant(tr, pc.b, pc.op.key);
  }

  // ---- safe reclamation ----

  /** Somebody can still get at box `b`: the root pointer, a child pointer in an
      allocated box, a thread that holds its lock or is waiting for it. */
  ghost predicate Refers(s: State, b: Box) {
    || b == s.root || b in s.locks
    || (exists c <- s.boxes :: s.boxes[c].Full? && (s.boxes[c].node.left == b || s.boxes[c].node.right == b))
    || (exists t <- s.pcs :: b in Held(s.pcs[t]) || b in Awaited(s.root, s.pcs[t]))
  }

  lemma {:induction false} ChildBelow(h: Heap, tr: Tree, b: Box)
    requires Rep(h, tr) && Distinct(tr) && b in Boxes(tr) && b in h && h[b].Full?
    ensures {h[b].node.left, h[b].node.right} <= Boxes(tr) - {tr.box}
    ensures Rank(tr, h[b].node.left) < Rank(tr, b) && Rank(tr, h[b].node.right) < Rank(tr, b)
  {
    BoxInBoxes(tr.left);
    BoxInBoxes(tr.right);
    RankSmaller(tr.left);
    RankSmaller(tr.right);
    if b in Boxes(tr.left) {
      ChildBelow(h, tr.left, b);
    } else if b in Boxes(tr.right) {
      ChildBelow(h, tr.right, b);
    }
  }

  ghost function Size(t: Tree): nat {
    match t
    case Leaf(_) => 1
    case Fork(_, _, _, l, r) => 1 + Size(l) + Size(r)
  }

  /** The size of the subtree at a box. */
  ghost function Rank(t: Tree, b: Box): nat
    requires b in Boxes(t)
  {
    if b == t.box then Size(t)
    else if b in Boxes(t.left) then Rank(t.left, b)
    else Rank(t.right, b)
  }

  lemma RankSmaller(t: Tree)
    ensures t.box in Boxes(t) && Rank(t, t.box) == Size(t)
  {
  }

  /** Nothing that anybody can get at has been freed. */
  lemma NoDangling(s: State, b: Box)
    requires Good(s) && Refers(s, b)
    ensures b in s.boxes
  {
    var tr := TreeOf(s);
    BoxInBoxes(tr);
    if b in s.locks {
      HeldAllocated(s, tr, s.locks[b]);
    } else if t :| t in s.pcs && (b in Held(s.pcs[t]) || b in Awaited(s.root, s.pcs[t])) {
      HeldAllocated(s, tr, t);
      AwaitedAllocated(s, tr, t);
    } else if b != s.root {
      var c :| c in s.boxes && s.boxes[c].Full? && (s.boxes[c].node.left == b || s.boxes[c].node.right == b);
      ChildBelow(s.boxes, tr, c);
    }
  }

  /** Safe reclamation: from the step that frees a box on, until `malloc` hands its
      address out again, nobody holds it, waits for it or can reach it; and when the
      address does come back, no stale pointer to it is left anywhere. */
  lemma SafeReclamation(ss: seq<State>, who: seq<Tid>, cs: seq<Choice>, i: nat, j: nat, b: Box)
    requires Execution(ss, who, cs) && i < j < |ss|
    requires b in ss[i].boxes && forall k :: i < k <= j ==> b !in ss[k].boxes
    ensures ss[i].pcs[who[i]].PushEnd?
    ensures !Refers(ss[j], b)
    ensures forall t :: t in ss[i].pcs && t != who[i] ==>
      b !in Held(ss[i].pcs[t]) && b !in Awaited(ss[i].root, ss[i].pcs[t])
  {
    assert b !in ss[i + 1].boxes;
    assert Step(ss[i], who[i], cs[i]) == Next(ss[i + 1]);
    RunGood(ss, who, cs, i + 1);
    RunGood(ss, who, cs, j);
    if Refers(ss[j], b) { NoDangling(ss[j], b); }
    forall t | t in ss[i].pcs && t != who[i]
      ensures b !in Held(ss[i].pcs[t]) && b !in Awaited(ss[i].root, ss[i].pcs[t])
    {
      OthersNeverKnew(ss[i], who[i], cs[i], ss[i + 1], b, t);
    }
  }

  /** No thread but the one that frees a box has to do with it. */
  lemma OthersNeverKnew(s: State, t: Tid, c: Choice, s': State, b: Box, u: Tid)
    requires t in s.pcs && Step(s, t, c) == Next(s') && Good(s') && b !in s'.boxes && u in s.pcs && u != t
    ensures b !in Held(s.pcs[u]) && b !in Awaited(s.root, s.pcs[u])
  {
    assert s'.pcs[u] == s.pcs[u] && s'.root == s.root;
    if b in Held(s.pcs[u]) || b in Awaited(s.root, s.pcs[u]) { NoDangling(s', b); }
  }

  // ---- deadlock freedom ----

  lemma {:induction false} UniqueParent(h: Heap, tr: Tree, b: Box, b': Box, q: Box)
    requires Rep(h, tr) && Distinct(tr) && {b, b'} <= Boxes(tr) && b in h && b' in h
    requires h[b].Full? && h[b'].Full?
    requires q in {h[b].node.left, h[b].node.right} && q in {h[b'].node.left, h[b'].node.right}
    ensures b == b'
  {
    BoxInBoxes(tr.left);
    BoxInBoxes(tr.right);
    var inL, inR := Boxes(tr.left), Boxes(tr.right);
    if b in inL { ChildBelow(h, tr.left, b); }
    if b' in inL { ChildBelow(h, tr.left, b'); }
    if b in inR { ChildBelow(h, tr.right, b); }
    if b' in inR { ChildBelow(h, tr.right, b'); }
    if b in inL && b' in inL {
      UniqueParent(h, tr.left, b, b', q);
    } else if b in inR && b' in inR {
      UniqueParent(h, tr.right, b, b', q);
    }
  }

  ghost predicate CanStep(s: State, t: Tid) {
    t in s.pcs && !s.pcs[t].Idle? && exists c :: Step(s, t, c).Next?
  }

  lemma FreshBox(used: set<Box>) returns (p: Box)
    ensures forall b <- used :: b < p
  {
    p := 0;
    var rest := used;
    while rest != {}
      invariant rest <= used
      invariant forall b <- used :: b !in rest ==> b < p
    {
      var b :| b in rest;
      if p <= b { p := b + 1; }
      rest := rest - {b};
    }
  }

  /** A thread that is not waiting for a taken lock can step. */
  lemma FreeToStep(s: State, tr: Tree, t: Tid)
    requires Inv(s, tr) && t in s.pcs && !s.pcs[t].Idle?
    requires forall b <- Awaited(s.root, s.pcs[t]) :: b !in s.locks
    ensures CanStep(s, t)
  {
    var p := FreshBox(s.boxes.Keys);
    var c := Choice(Lookup(0), p, p + 1);
    NoFault(s, t, c, tr);
    assert Step(s, t, c).Next?;
  }

  /** Whoever holds the lock a thread waits for can step, or waits for a box that is
      strictly deeper in the tree as it is now. */
  lemma WaitsDeeper(s: State, tr: Tree, t: Tid, d: Box, d': Box)
    requires Inv(s, tr) && t in s.pcs && d in Awaited(s.root, s.pcs[t]) && d in s.locks
    requires s.locks[d] in s.pcs && d' in Awaited(s.root, s.pcs[s.locks[d]])
    ensures {d, d'} <= Boxes(tr) && Rank(tr, d') < Rank(tr, d)
  {
    var v := s.locks[d];
    var pc, pcv := s.pcs[t], s.pcs[v];
    assert Knows(s.boxes, tr, pc) && Knows(s.boxes, tr, pcv);
    assert d in Held(pcv);
    AwaitedAllocated(s, tr, t);
    AwaitedAllocated(s, tr, v);
    HeldAllocated(s, tr, v);
    HeldAllocated(s, tr, t);
    ChildBelow(s.boxes, tr, pcv.b);
    if pcv.PushLeft? && d == pcv.q {
      // only the thread that holds the parent of q can wait for q
      PushChildren(s.boxes, tr, pcv.b, pcv.op.key);
      HeldApart(s, t, v);
      assert pc.b in Held(pc) && pcv.b in Held(pcv);
      UniqueParent(s.boxes, tr, pc.b, pcv.b, d);
      assert false;
    }
  }

  lemma {:induction false} Unblocks(s: State, tr: Tree, t: Tid, d: Box) returns (u: Tid)
    requires Inv(s, tr) && t in s.pcs && d in Awaited(s.root, s.pcs[t]) && d in Boxes(tr)
    ensures CanStep(s, u)
    decreases Rank(tr, d)
  {
    if d !in s.locks {
      u := t;
      FreeToStep(s, tr, t);
    } else {
      u := s.locks[d];
      if Awaited(s.root, s.pcs[u]) == {} {
        FreeToStep(s, tr, u);
      } else {
        var d' :| d' in Awaited(s.root, s.pcs[u]);
        WaitsDeeper(s, tr, t, d, d');
        u := Unblocks(s, tr, u, d');
      }
    }
  }

  /** Deadlock freedom: while an operation is unfinished, some thread inside an
      operation can take a step. */
  lemma DeadlockFree(ss: seq<State>, who: seq<Tid>, cs: seq<Choice>, n: nat, t: Tid) returns (u: Tid)
    requires Execution(ss, who, cs) && n < |ss|
    requires t in ss[n].pcs && !ss[n].pcs[t].Idle?
    ensures CanStep(ss[n], u)
  {
    RunGood(ss, who, cs, n);
    var s, tr := ss[n], TreeOf(ss[n]);
    if Awaited(s.root, s.pcs[t]) == {} {
      u := t;
      FreeToStep(s, tr, t);
    } else {
      var d :| d in Awaited(s.root, s.pcs[t]);
      AwaitedAllocated(s, tr, t);
      u := Unblocks(s, tr, t, d);
    }
  }
}
