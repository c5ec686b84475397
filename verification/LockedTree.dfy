/** The hand-over-hand locking BST as a step system. One step is one lock
    acquisition, one lock release, or the reads and writes a thread makes between
    two of these, all of them under locks it holds. */
module LockedTree {
  import opened AtomicMap
  import opened BoxTree

  /** Where a thread is in the code, with the locals that are live there. */
  datatype Pc =
    | Idle                                    // between calls
    | Enter(op: Op)                           // about to acquire the root's lock
    | Look(op: Op, b: Box)                    // holds b, about to read its content
    | Reach(op: Op, b: Box, c: Box)           // holds b, about to acquire its child c
    | Cross(op: Op, b: Box, c: Box)           // holds b and c, about to release b
    | Exit(op: Op, b: Box, result: Value)     // holds b, about to release it and return
    | Push(op: Op, b: Box)                    // pushdown_left loop head, holds b
    | PushReach(op: Op, b: Box, q: Box)       // about to acquire the right child q
    | PushTurn(op: Op, b: Box, q: Box)        // holds b and q, about to read q's content
    | PushCross(op: Op, b: Box, q: Box)       // rotated, about to release b and go on at q
    | PushLeft(op: Op, b: Box, q: Box, l: Box)   // q is empty, about to acquire the left child l
    | PushEnd(op: Op, b: Box, q: Box, l: Box)    // holds all three, about to unlink and free

  /** A lock belongs to its box and is made and freed with it; a free lock is not
      in `locks`. */
  datatype State = State(root: Box, boxes: Heap, locks: map<Box, Tid>, pcs: map<Tid, Pc>)

  /** What the code does not decide: the operation a client asks for, and the
      addresses that `malloc` returns for two new boxes. An address that was freed
      may come back. */
  datatype Choice = Choice(op: Op, p1: Box, p2: Box)

  /** `Fault` is an access to a box that is not allocated, a NULL node dereferenced,
      or a lock released or freed by a thread that does not hold it. */
  datatype Outcome = Next(state: State) | Blocked | Fault

  function Goto(s: State, t: Tid, pc: Pc): State {
    s.(pcs := s.pcs[t := pc])
  }

  function Acquire(s: State, t: Tid, b: Box, pc: Pc): Outcome {
    if b !in s.boxes then Fault
    else if b in s.locks then Blocked
    else Next(Goto(s, t, pc).(locks := s.locks[b := t]))
  }

  predicate Holds(s: State, t: Tid, b: Box) {
    b in s.boxes && b in s.locks && s.locks[b] == t
  }

  function Release(s: State, t: Tid, b: Box, pc: Pc): Outcome {
    if !Holds(s, t, b) then Fault
    else Next(Goto(s, t, pc).(locks := s.locks - {b}))
  }

  function FillHeap(h: Heap, op: Op, b: Box, c: Choice): Heap
    requires op.Insert?
  {
    h[c.p1 := Empty][c.p2 := Empty][b := Full(Node(op.key, op.value, c.p1, c.p2))]
  }

  /** `insert` on an empty box: two empty boxes with free locks, and a node over them. */
  function Fill(s: State, t: Tid, op: Op, b: Box, c: Choice): Outcome
    requires op.Insert?
  {
    if c.p1 in s.boxes || c.p2 in s.boxes || c.p1 == c.p2 then Blocked
    else Next(Goto(s, t, Exit(op, b, NULL)).(boxes := FillHeap(s.boxes, op, b, c)))
  }

  function OverwriteHeap(h: Heap, b: Box, v: Value): Heap
    requires b in h && h[b].Full?
  {
    h[b := Full(h[b].node.(value := v))]
  }

  /** The body of the search loop at box `b`. */
  function LookStep(s: State, t: Tid, op: Op, b: Box, c: Choice): Outcome {
    if !Holds(s, t, b) then Fault
    else match s.boxes[b]
      case Empty => if op.Insert? then Fill(s, t, op, b, c) else Next(Goto(s, t, Exit(op, b, NULL)))
      case Full(p) =>
        if op.key < p.key then Next(Goto(s, t, Reach(op, b, p.left)))
        else if p.key < op.key then Next(Goto(s, t, Reach(op, b, p.right)))
        else match op
          case Insert(_, v) =>
            Next(Goto(s, t, Exit(op, b, NULL)).(boxes := OverwriteHeap(s.boxes, b, v)))
          case Lookup(_) => Next(Goto(s, t, Exit(op, b, p.value)))
          case Delete(_) => Next(Goto(s, t, Push(op, b)))
  }

  /** `turn_left(tgl, tgr)` on the two nodes `l` and `r` that the boxes hold. */
  function TurnLeftHeap(h: Heap, tgl: Box, tgr: Box, l: Node, r: Node): Heap {
    h[tgl := Full(r.(left := tgr))][tgr := Full(l.(right := r.left))]
  }

  /** `pushdown_left` once the right child's lock is held. */
  function TurnStep(s: State, t: Tid, op: Op, b: Box, q: Box): Outcome {
    if !Holds(s, t, b) || !Holds(s, t, q) || s.boxes[b].Empty? then Fault
    else match s.boxes[q]
      case Empty => Next(Goto(s, t, PushLeft(op, b, q, s.boxes[b].node.left)))
      case Full(r) =>
        var h := TurnLeftHeap(s.boxes, b, q, s.boxes[b].node, r);
        if h[b].Empty? then Fault
        else Next(Goto(s, t, PushCross(op, b, h[b].node.left)).(boxes := h))
  }

  /** The left child's content has moved up, and the two children are freed. */
  function UnlinkHeap(h: Heap, b: Box, q: Box, l: Box): Heap
    requires l in h
  {
    h[b := h[l]] - {q, l}
  }

  /** The end of `pushdown_left`: move the left child's content up, free the two
      children and their locks. */
  function UnlinkStep(s: State, t: Tid, op: Op, b: Box, q: Box, l: Box): Outcome {
    if !Holds(s, t, b) || !Holds(s, t, q) || !Holds(s, t, l) then Fault
    else
      Next(Goto(s, t, Exit(op, b, NULL)).(
        boxes := UnlinkHeap(s.boxes, b, q, l),
        locks := s.locks - {q, l}))
  }

  /** The step that thread `t` takes next. */
  function Step(s: State, t: Tid, c: Choice): Outcome
    requires t in s.pcs
  {
    match s.pcs[t]
    case Idle => Next(Goto(s, t, Enter(c.op)))
    case Enter(op) => Acquire(s, t, s.root, Look(op, s.root))
    case Look(op, b) => LookStep(s, t, op, b, c)
    case Reach(op, b, d) => Acquire(s, t, d, Cross(op, b, d))
    case Cross(op, b, d) => Release(s, t, b, Look(op, d))
    case Exit(op, b, _) => Release(s, t, b, Idle)
    case Push(op, b) =>
      if !Holds(s, t, b) || s.boxes[b].Empty? then Fault
      else Next(Goto(s, t, PushReach(op, b, s.boxes[b].node.right)))
    case PushReach(op, b, q) => Acquire(s, t, q, PushTurn(op, b, q))
    case PushTurn(op, b, q) => TurnStep(s, t, op, b, q)
    case PushCross(op, b, q) => Release(s, t, b, Push(op, q))
    case PushLeft(op, b, q, l) => Acquire(s, t, l, PushEnd(op, b, q, l))
    case PushEnd(op, b, q, l) => UnlinkStep(s, t, op, b, q, l)
  }

  /** `treebox_new`: one empty box with a free lock, and threads that have not begun. */
  ghost predicate Init(s: State) {
    && s.boxes == map[s.root := Empty] && s.locks == map[]
    && forall t <- s.pcs :: s.pcs[t].Idle?
  }

  // ---- the invariant ----

  function Held(pc: Pc): set<Box> {
    match pc
    case Idle => {}
    case Enter(_) => {}
    case Look(_, b) => {b}
    case Reach(_, b, _) => {b}
    case Cross(_, b, c) => {b, c}
    case Exit(_, b, _) => {b}
    case Push(_, b) => {b}
    case PushReach(_, b, _) => {b}
    case PushTurn(_, b, q) => {b, q}
    case PushCross(_, b, q) => {b, q}
    case PushLeft(_, b, q, _) => {b, q}
    case PushEnd(_, b, q, l) => {b, q, l}
  }

  /** The box whose lock a thread is about to acquire. */
  function Awaited(root: Box, pc: Pc): set<Box> {
    match pc
    case Enter(_) => {root}
    case Reach(_, _, c) => {c}
    case PushReach(_, _, q) => {q}
    case PushLeft(_, _, _, l) => {l}
    case _ => {}
  }

  ghost predicate HasNode(h: Heap, b: Box, x: Key) {
    b in h && h[b].Full? && h[b].node.key == x
  }

  /** `c` is where the search for `x` goes from the node in box `b`. */
  ghost predicate ChildFor(h: Heap, b: Box, x: Key, c: Box) {
    && b in h && h[b].Full? && x != h[b].node.key
    && c == if x < h[b].node.key then h[b].node.left else h[b].node.right
  }

  /** What a thread at `pc` knows about the boxes it holds. */
  ghost predicate Knows(h: Heap, tr: Tree, pc: Pc) {
    match pc
    case Idle => true
    case Enter(_) => true
    case Look(op, b) => OnPath(tr, b, op.key)
    case Reach(op, b, c) => OnPath(tr, b, op.key) && ChildFor(h, b, op.key, c)
    case Cross(op, b, c) => OnPath(tr, b, op.key) && ChildFor(h, b, op.key, c)
    case Exit(op, b, _) => OnPath(tr, b, op.key)
    case Push(op, b) => op.Delete? && OnPath(tr, b, op.key) && HasNode(h, b, op.key)
    case PushReach(op, b, q) =>
      op.Delete? && OnPath(tr, b, op.key) && HasNode(h, b, op.key) && h[b].node.right == q
    case PushTurn(op, b, q) =>
      op.Delete? && OnPath(tr, b, op.key) && HasNode(h, b, op.key) && h[b].node.right == q
    case PushCross(op, b, q) =>
      && op.Delete? && OnPath(tr, b, op.key) && b in h && h[b].Full? && h[b].node.left == q
      && op.key < h[b].node.key && HasNode(h, q, op.key)
    case PushLeft(op, b, q, l) =>
      && op.Delete? && OnPath(tr, b, op.key) && HasNode(h, b, op.key)
      && h[b].node.right == q && h[b].node.left == l && q in h && h[q] == Empty
    case PushEnd(op, b, q, l) =>
      && op.Delete? && OnPath(tr, b, op.key) && HasNode(h, b, op.key)
      && h[b].node.right == q && h[b].node.left == l && q in h && h[q] == Empty
  }

  /** The boxes are exactly the boxes of the sorted tree `tr`. */
  ghost predicate Shape(s: State, tr: Tree) {
    && tr.box == s.root && Distinct(tr) && Sorted(tr)
    && Rep(s.boxes, tr) && s.boxes.Keys == Boxes(tr)
  }

  /** A lock is taken exactly when a thread is at a point where it holds it. */
  ghost predicate LocksMatch(s: State) {
    && (forall b <- s.locks :: s.locks[b] in s.pcs && b in Held(s.pcs[s.locks[b]]))
    && (forall t, b :: t in s.pcs && b in Held(s.pcs[t]) ==> b in s.locks && s.locks[b] == t)
  }

  ghost predicate Inv(s: State, tr: Tree) {
    && Shape(s, tr) && LocksMatch(s)
    && (forall t <- s.pcs :: Knows(s.boxes, tr, s.pcs[t]))
  }

  ghost predicate Good(s: State) {
    exists tr :: Inv(s, tr)
  }

  ghost function TreeOf(s: State): (tr: Tree)
    requires Good(s)
    ensures Inv(s, tr)
  {
    var tr :| Inv(s, tr); tr
  }

  // ---- the atomic map that a state stands for ----

  function StatusOf(pc: Pc): Status {
    match pc
    case Idle => Ready
    case Exit(op, _, r) => Done(op, r)
    case _ => Pending(pc.op)
  }

  ghost function Abs(s: State, tr: Tree): Spec {
    Spec(Contents(tr), map t | t in s.pcs :: StatusOf(s.pcs[t]))
  }
}
