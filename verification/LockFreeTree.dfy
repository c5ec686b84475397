/** The lock-free BST as a step system: every step does at most one atomic access.
    All atomics are sequentially consistent. */
module LockFreeTree {
  import opened AtomicMap
  import BoxTree

  type Cell = nat    // the address of an `atom_ptr`
  type Ptr = nat     // the address of a node

  /** A node pointer as an atomic cell or the variable `*ref` holds it. */
  datatype Link = Null | To(ptr: Ptr)

  /** `struct tree`: key, and the cells of the value and of the two links. */
  datatype Node = Node(key: Key, value: Cell, left: Cell, right: Cell)

  datatype Pc =
    | Idle
    | Load(op: Op, temp: Cell, ref: Link)                // about to load from temp
    | Branch(op: Op, temp: Cell, tp: Ptr, ref: Link)     // loaded tp, about to compare keys
    | Build(op: Op, temp: Cell, ref: Link)               // loaded NULL, about to allocate
    | Cas(op: Op, temp: Cell, p: Ptr, ref: Link)         // about to publish p
    | Undo(op: Op, temp: Cell, p: Ptr, ref: Link)        // CAS failed, about to free p
    | Exit(op: Op, result: Value)                        // about to return

  /** The three kinds of allocated memory, and where the threads are. */
  datatype State = State(
    root: Cell,
    links: map<Cell, Link>,
    values: map<Cell, Value>,
    nodes: map<Ptr, Node>,
    pcs: map<Tid, Pc>)

  /** What the code does not decide: the client's next operation (this tree offers no
      delete) and the addresses `malloc` returns, which may have been freed before. */
  datatype Choice = Choice(op: Op, p: Ptr, value: Cell, left: Cell, right: Cell)

  datatype Outcome = Next(state: State) | Blocked | Fault

  function Goto(s: State, t: Tid, pc: Pc): State {
    s.(pcs := s.pcs[t := pc])
  }

  function LoadStep(s: State, t: Tid, op: Op, temp: Cell, ref: Link): Outcome {
    if temp !in s.links then Fault
    else match s.links[temp]
      case Null =>
        if op.Insert? then Next(Goto(s, t, Build(op, temp, ref)))
        else Next(Goto(s, t, Exit(op, NULL)))
      case To(tp) => Next(Goto(s, t, Branch(op, temp, tp, ref)))
  }

  /** Compares with the key of `tp`: moves on, or stores or loads the value. */
  function BranchStep(s: State, t: Tid, op: Op, tp: Ptr, ref: Link): Outcome {
    if tp !in s.nodes then Fault
    else
      var n := s.nodes[tp];
      if op.key < n.key then Next(Goto(s, t, Load(op, n.left, ref)))
      else if n.key < op.key then Next(Goto(s, t, Load(op, n.right, ref)))
      else if n.value !in s.values then Fault
      else if op.Insert? then
        Next(Goto(s, t, Exit(op, NULL)).(values := s.values[n.value := op.value]))
      else Next(Goto(s, t, Exit(op, s.values[n.value])))
  }

  /** A new node with its value cell and two NULL links, not yet visible to others. */
  function BuildStep(s: State, t: Tid, op: Op, temp: Cell, ref: Link, c: Choice): Outcome
    requires op.Insert?
  {
    if c.p in s.nodes || c.value in s.values || c.left in s.links || c.right in s.links || c.left == c.right
    then Blocked
    else Next(Goto(s, t, Cas(op, temp, c.p, ref)).(
      links := s.links[c.left := Null][c.right := Null],
      values := s.values[c.value := op.value],
      nodes := s.nodes[c.p := Node(op.key, c.value, c.left, c.right)]))
  }

  /** Compare-and-swap of `temp` from `*ref` to `p`; on failure `*ref` becomes what was seen. */
  function CasStep(s: State, t: Tid, op: Op, temp: Cell, p: Ptr, ref: Link): Outcome {
    if temp !in s.links then Fault
    else if s.links[temp] == ref then
      Next(Goto(s, t, Exit(op, NULL)).(links := s.links[temp := To(p)]))
    else Next(Goto(s, t, Undo(op, temp, p, s.links[temp])))
  }

  function UndoStep(s: State, t: Tid, op: Op, temp: Cell, p: Ptr, ref: Link): Outcome {
    if p !in s.nodes then Fault
    else
      var n := s.nodes[p];
      if n.value !in s.values || n.left !in s.links || n.right !in s.links || n.left == n.right then Fault
      else Next(Goto(s, t, Load(op, temp, ref)).(
        links := s.links - {n.left, n.right}, values := s.values - {n.value}, nodes := s.nodes - {p}))
  }

  function Step(s: State, t: Tid, c: Choice): Outcome
    requires t in s.pcs
  {
    match s.pcs[t]
    case Idle => if c.op.Delete? then Blocked else Next(Goto(s, t, Load(c.op, s.root, Null)))
    case Load(op, temp, ref) => LoadStep(s, t, op, temp, ref)
    case Branch(op, temp, tp, ref) => BranchStep(s, t, op, tp, ref)
    case Build(op, temp, ref) => if !op.Insert? then Fault else BuildStep(s, t, op, temp, ref, c)
    case Cas(op, temp, p, ref) => CasStep(s, t, op, temp, p, ref)
    case Undo(op, temp, p, ref) => UndoStep(s, t, op, temp, p, ref)
    case Exit(op, _) => Next(Goto(s, t, Idle))
  }

  /** `treebox_new`: one NULL cell. */
  ghost predicate Init(s: State) {
    && s.links == map[s.root := Null] && s.values == map[] && s.nodes == map[]
    && forall t <- s.pcs :: s.pcs[t].Idle?
  }

  // ---- the invariant ----

  ghost predicate NodeOk(s: State, p: Ptr) {
    p in s.nodes && s.nodes[p].value in s.values
  }

  /** The cells seen as boxes that hold a key and a value. */
  ghost function View(s: State): BoxTree.Heap {
    map c | c in s.links && (s.links[c].To? ==> NodeOk(s, s.links[c].ptr)) ::
      match s.links[c]
      case Null => BoxTree.Empty
      case To(p) =>
        var n := s.nodes[p];
        BoxTree.Full(BoxTree.Node(n.key, s.values[n.value], n.left, n.right))
  }

  ghost predicate NodeMemory(s: State, p: Ptr) {
    p in s.nodes ==>
      var n := s.nodes[p];
      n.value in s.values && n.left in s.links && n.right in s.links && n.left != n.right
  }

  ghost predicate LinkMemory(s: State, c: Cell) {
    c in s.links && s.links[c].To? ==> s.links[c].ptr in s.nodes
  }

  /** Two nodes share no cell. */
  ghost predicate Apart(s: State, p: Ptr, q: Ptr) {
    p in s.nodes && q in s.nodes && p != q ==>
      var n, m := s.nodes[p], s.nodes[q];
      n.value != m.value && n.left !in {m.left, m.right} && n.right !in {m.left, m.right}
  }

  /** Two cells do not link the same node. */
  ghost predicate Unshared(s: State, c: Cell, d: Cell) {
    c in s.links && d in s.links && c != d && s.links[c].To? ==> s.links[d] != s.links[c]
  }

  /** Allocated nodes own their cells, and each is linked from at most one place. */
  ghost predicate Memory(s: State) {
    && (forall p {:trigger NodeMemory(s, p)} :: NodeMemory(s, p))
    && (forall p, q {:trigger Apart(s, p, q)} :: Apart(s, p, q))
    && (forall c {:trigger LinkMemory(s, c)} :: LinkMemory(s, c))
    && (forall c, d {:trigger Unshared(s, c, d)} :: Unshared(s, c, d))
  }

  /** A node that only its maker knows. */
  ghost predicate Private(s: State, tr: BoxTree.Tree, p: Ptr) {
    && p in s.nodes
    && (forall c <- s.links :: s.links[c] != To(p))
    && s.nodes[p].left !in BoxTree.Boxes(tr) && s.nodes[p].right !in BoxTree.Boxes(tr)
    && s.nodes[p].left in s.links && s.links[s.nodes[p].left].Null?
    && s.nodes[p].right in s.links && s.links[s.nodes[p].right].Null?
  }

  /** A stale `*ref` is a node that is linked from some cell, and, where a CAS is
      ahead, from another cell than the one the CAS is aimed at. */
  ghost predicate RefOk(s: State, ref: Link, notAt: set<Cell>) {
    ref.To? ==> exists c :: c in s.links && c !in notAt && s.links[c] == ref
  }

  ghost predicate Knows(s: State, tr: BoxTree.Tree, pc: Pc) {
    match pc
    case Idle => true
    case Load(op, temp, ref) => BoxTree.OnPath(tr, temp, op.key) && RefOk(s, ref, {}) && !op.Delete?
    case Branch(op, temp, tp, ref) =>
      && BoxTree.OnPath(tr, temp, op.key) && RefOk(s, ref, {}) && !op.Delete?
      && temp in s.links && s.links[temp] == To(tp)
    case Build(op, temp, ref) =>
      op.Insert? && BoxTree.OnPath(tr, temp, op.key) && RefOk(s, ref, {temp})
    case Cas(op, temp, p, ref) =>
      && op.Insert? && BoxTree.OnPath(tr, temp, op.key) && RefOk(s, ref, {temp}) && Private(s, tr, p)
      && s.nodes[p].key == op.key && s.nodes[p].value in s.values && s.values[s.nodes[p].value] == op.value
    case Undo(op, temp, p, ref) =>
      op.Insert? && BoxTree.OnPath(tr, temp, op.key) && RefOk(s, ref, {}) && Private(s, tr, p)
    case Exit(op, _) => true
  }

  predicate Owns(pc: Pc, p: Ptr) {
    (pc.Cas? || pc.Undo?) && pc.p == p
  }

  ghost predicate Shape(s: State, tr: BoxTree.Tree) {
    tr.box == s.root && BoxTree.Distinct(tr) && BoxTree.Sorted(tr) && BoxTree.Rep(View(s), tr)
  }

  ghost predicate OwnersApart(s: State) {
    forall t, u, p :: t in s.pcs && u in s.pcs && Owns(s.pcs[t], p) && Owns(s.pcs[u], p) ==> t == u
  }

  ghost predicate Inv(s: State, tr: BoxTree.Tree) {
    && Shape(s, tr) && Memory(s) && OwnersApart(s)
    && forall t <- s.pcs :: Knows(s, tr, s.pcs[t])
  }

  ghost predicate Good(s: State) {
    exists tr :: Inv(s, tr)
  }

  ghost function TreeOf(s: State): (tr: BoxTree.Tree)
    requires Good(s)
    ensures Inv(s, tr)
  {
    var tr :| Inv(s, tr); tr
  }

  function StatusOf(pc: Pc): Status {
    match pc
    case Idle => Ready
    case Exit(op, r) => Done(op, r)
    case _ => Pending(pc.op)
  }

  ghost function Abs(s: State, tr: BoxTree.Tree): Spec {
    Spec(BoxTree.Contents(tr), map t | t in s.pcs :: StatusOf(s.pcs[t]))
  }
}
