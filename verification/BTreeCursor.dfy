/** The relation and its cursor, updated step by step. The cursor keeps, for every level,
    the position in `kids` of the child it went to (one more than the index in `entries`,
    so that `ptr0` is position 0) and at the leaf the entry index. */
module BTreeCursor {
  import opened BTree
  import opened BTreeMoves
  import opened BTreeInsert
  import opened BTreeLevels
  import opened BTreeNodes

  class Relation {
    var root: Node
    var numRecords: nat
    var depth: nat

    /** `RL_NewRelation` */
    constructor ()
      ensures Tree(root, depth) && Recs(root) == [] && numRecords == 0
    {
      root := Leaf(true, true, [], []);
      numRecords := 0;
      depth := 0;
    }
  }

  /** A new entry on its way into the tree: a record, or a child a split produced. */
  datatype NewEntry = Record(key: Key, rec: Value) | Child(key: Key, child: Node)

  class Cursor {
    const relation: Relation
    const ancestorsIdx: array<nat>
    var level: int

    /** The position: the indices on the levels down to the current one. */
    ghost function Path(): seq<nat>
      requires -1 <= level < ancestorsIdx.Length
      reads this, ancestorsIdx
    {
      ancestorsIdx[..level + 1]
    }

    ghost predicate Consistent()
      reads this, relation, ancestorsIdx
    {
      && ancestorsIdx.Length == MAX_TREE_DEPTH
      && 0 <= level < MAX_TREE_DEPTH && level == relation.depth
      && Tree(relation.root, relation.depth)
      && relation.numRecords == |Recs(relation.root)|
      && IsPath(relation.root, Path())
    }

    /** `currNode`: the node at the current level. */
    function CurrNode(): Node
      requires 0 <= level
      reads this, relation, ancestorsIdx
    {
      NodeAt(relation.root, ancestorsIdx[..], level)
    }

    function EntryIndex(): nat
      requires 0 <= level < ancestorsIdx.Length
      reads this, ancestorsIdx
    {
      ancestorsIdx[level]
    }

    lemma Here()
      requires Consistent()
      ensures CurrNode() == LeafOf(relation.root, Path()) && CurrNode().Leaf? && EntryIndex() == LeafIdx(Path())
      ensures |Path()| == level + 1 && EntryIndex() <= |CurrNode().keys| == |CurrNode().recs|
    {
      RankBound(relation.root, relation.depth, Open, Open, true, Path());
      NodeAtTake(relation.root, ancestorsIdx[..], level + 1, level);
      NodeAtWF(relation.root, relation.depth, Open, Open, true, Path(), level);
    }

    /** `RL_NewCursor` */
    constructor (r: Relation)
      requires Tree(r.root, r.depth) && r.numRecords == |Recs(r.root)| && r.depth < MAX_TREE_DEPTH
      ensures relation == r && fresh(ancestorsIdx)
      ensures Consistent() && Path() == FirstPath(r.root)
    {
      relation := r;
      ancestorsIdx := new nat[MAX_TREE_DEPTH](_ => 0);
      level := -1;
      new;
      WFShape(r.root, r.depth, Open, Open, true);
      MoveToFirst(r.root, 0, r.depth);
      FirstRank(r.root, r.depth, Open, Open, true);
      assert Path() == FirstPath(r.root);
    }

    /** `isValid` */
    method IsValid() returns (b: bool)
      requires Consistent()
      ensures b == Valid(relation.root, Path())
      ensures b <==> Rank(relation.root, Path()) < |Recs(relation.root)|
    {
      Here();
      ValidIsRank(relation.root, relation.depth, Path());
      return !(EntryIndex() == |CurrNode().keys| && CurrNode().last);
    }

    /** `isFirst` */
    method IsFirst() returns (b: bool)
      requires Consistent()
      ensures b == First(relation.root, Path())
    {
      Here();
      return EntryIndex() == 0 && CurrNode().first;
    }

    // ---- descents ----

    method MoveToFirst(node: Node, lvl: nat, ghost h: nat)
      requires ancestorsIdx.Length == MAX_TREE_DEPTH && Shape(node, h) && lvl + h < MAX_TREE_DEPTH
      modifies this`level, ancestorsIdx
      ensures level == lvl + h && Path() == old(ancestorsIdx[..lvl]) + FirstPath(node)
      decreases h
    {
      level := lvl;
      ancestorsIdx[lvl] := 0;
      if node.Leaf? { return; }
      MoveToFirst(node.kids[0], lvl + 1, h - 1);
      Snoc(old(ancestorsIdx[..]), lvl, 0, FirstPath(node.kids[0]));
    }

    method MoveToLast(node: Node, lvl: nat, ghost h: nat)
      requires ancestorsIdx.Length == MAX_TREE_DEPTH && Shape(node, h) && lvl + h < MAX_TREE_DEPTH
      modifies this`level, ancestorsIdx
      ensures level == lvl + h && Path() == old(ancestorsIdx[..lvl]) + LastPath(node)
      decreases h
    {
      level := lvl;
      if node.Leaf? {
        ancestorsIdx[lvl] := |node.keys|;
        return;
      }
      ancestorsIdx[lvl] := |node.keys|;
      MoveToLast(node.kids[|node.keys|], lvl + 1, h - 1);
      Snoc(old(ancestorsIdx[..]), lvl, |node.keys|, LastPath(node.kids[|node.keys|]));
    }

    method MoveToKey(node: Node, key: Key, lvl: nat, ghost h: nat)
      requires ancestorsIdx.Length == MAX_TREE_DEPTH && Shape(node, h) && lvl + h < MAX_TREE_DEPTH
      modifies this`level, ancestorsIdx
      ensures level == lvl + h && Path() == old(ancestorsIdx[..lvl]) + KeyPath(node, key)
      decreases h
    {
      level := lvl;
      if node.Leaf? {
        ancestorsIdx[lvl] := FindRecordIndex(node.keys, key);
        return;
      }
      var i := FindChildIndex(node.keys, key);
      ancestorsIdx[lvl] := i;
      MoveToKey(node.kids[i], key, lvl + 1, h - 1);
      Snoc(old(ancestorsIdx[..]), lvl, i, KeyPath(node.kids[i], key));
    }

    // ---- the finger search ----

    method AscendToParent(key: Key)
      requires ancestorsIdx.Length == MAX_TREE_DEPTH && 0 <= level < MAX_TREE_DEPTH
      modifies this`level
      ensures level == Ascend(relation.root, ancestorsIdx[..], old(level), key)
      decreases level
    {
      if level == 0 { return; }
      var parent := IsNodeParent(CurrNode(), key);
      if parent { return; }
      level := level - 1;
      AscendToParent(key);
    }

    /** From any consistent position, the climb and the descent end exactly where the
        search from the root ends. */
    method GoToKey(key: Key)
      requires Consistent()
      modifies this`level, ancestorsIdx
      ensures Consistent() && Path() == KeyPath(relation.root, key)
    {
      ghost var root, h, idx := relation.root, relation.depth, ancestorsIdx[..];
      AscendToParent(key);
      ghost var l: nat := level;
      AscendTake(root, idx, h + 1, h, key);
      FingerLands(root, h, idx, key);
      MoveToKey(CurrNode(), key, level, h - l);
      assert Path() == idx[..l] + KeyPath(NodeAt(root, idx, l), key);
    }

    // ---- moves ----

    /** While the ancestor's pointer is the last one, ascend. */
    method ClimbFromLast()
      requires Consistent() && Valid(relation.root, Path())
      modifies this`level
      ensures 0 <= level <= old(level)
      ensures NextTurn(relation.root, relation.depth, old(Path()), level)
    {
      ghost var root, h, path, idx := relation.root, relation.depth, Path(), ancestorsIdx[..];
      Here();
      ValidIsRank(root, h, path);
      while level > 0 && EntryIndex() == |CurrNode().keys|
        invariant 0 <= level <= h && ancestorsIdx[..] == idx
        invariant level < h ==> Next(NodeAt(root, path, level + 1), path[level + 1..]).Stuck?
        decreases level
      {
        NodeAtTake(root, idx, h + 1, level);
        NextStuckUp(root, h, path, level);
        level := level - 1;
      }
      NodeAtTake(root, idx, h + 1, level);
      NextTurns(root, h, path, level);
    }

    method ClimbFromFirst()
      requires Consistent() && !First(relation.root, Path())
      modifies this`level
      ensures 0 <= level <= old(level)
      ensures PrevTurn(relation.root, relation.depth, old(Path()), level)
    {
      ghost var root, h, path, idx := relation.root, relation.depth, Path(), ancestorsIdx[..];
      Here();
      ValidIsRank(root, h, path);
      while level > 0 && EntryIndex() == 0
        invariant 0 <= level <= h && ancestorsIdx[..] == idx
        invariant level < h ==> Prev(NodeAt(root, path, level + 1), path[level + 1..]).Stuck?
        decreases level
      {
        NodeAtTake(root, idx, h + 1, level);
        PrevStuckUp(root, h, path, level);
        level := level - 1;
      }
      NodeAtTake(root, idx, h + 1, level);
      PrevTurns(root, h, path, level);
    }

    /** One pointer on, and from there down the first pointers. */
    method TurnOn(ghost h: nat, ghost path: seq<nat>)
      requires ancestorsIdx.Length == MAX_TREE_DEPTH && 0 <= level <= h < MAX_TREE_DEPTH
      requires path == ancestorsIdx[..h + 1] && NextTurn(relation.root, h, path, level)
      modifies this`level, ancestorsIdx
      ensures level == h && Path() == MoveNext(relation.root, path)
    {
      ghost var root, idx, l: nat := relation.root, ancestorsIdx[..], level;
      NodeAtTake(root, idx, h + 1, l);
      ancestorsIdx[level] := ancestorsIdx[level] + 1;
      NodeAtSame(root, idx, ancestorsIdx[..], l);
      if CurrNode().Leaf? {
        assert Path() == path[..l] + [path[l] + 1];
        return;
      }
      MoveToFirst(CurrNode().kids[EntryIndex()], level + 1, h - level - 1);
      Snoc(idx, l, path[l] + 1, FirstPath(NodeAt(root, path, l).kids[path[l] + 1]));
      assert idx[..l] == path[..l];
    }

    method TurnBack(ghost h: nat, ghost path: seq<nat>)
      requires ancestorsIdx.Length == MAX_TREE_DEPTH && 0 <= level <= h < MAX_TREE_DEPTH
      requires path == ancestorsIdx[..h + 1] && PrevTurn(relation.root, h, path, level)
      modifies this`level, ancestorsIdx
      ensures level == h && Path() == MovePrev(relation.root, path)
    {
      ghost var root, idx, l: nat := relation.root, ancestorsIdx[..], level;
      NodeAtTake(root, idx, h + 1, l);
      ancestorsIdx[level] := ancestorsIdx[level] - 1;
      NodeAtSame(root, idx, ancestorsIdx[..], l);
      if CurrNode().Leaf? {
        assert Path() == path[..l] + [path[l] - 1];
        return;
      }
      MoveToLast(CurrNode().kids[EntryIndex()], level + 1, h - level - 1);
      Snoc(idx, l, path[l] - 1, LastPath(NodeAt(root, path, l).kids[path[l] - 1]));
      assert idx[..l] == path[..l];
    }

    /** `moveToNext` */
    method MoveToNext()
      requires Consistent()
      modifies this`level, ancestorsIdx
      ensures Consistent() && Path() == MoveNext(relation.root, old(Path()))
    {
      ghost var root, h, path := relation.root, relation.depth, Path();
      ValidIsRank(root, h, path);
      var valid := IsValid();
      if !valid { return; }
      MoveNextKeeps(root, h, path);
      ClimbFromLast();
      TurnOn(h, path);
    }

    /** `moveToPrev` */
    method MoveToPrev()
      requires Consistent()
      modifies this`level, ancestorsIdx
      ensures Consistent() && Path() == MovePrev(relation.root, old(Path()))
    {
      ghost var root, h, path := relation.root, relation.depth, Path();
      ValidIsRank(root, h, path);
      var first := IsFirst();
      if first { return; }
      MovePrevKeeps(root, h, path);
      ClimbFromFirst();
      TurnBack(h, path);
    }

    // ---- the operations ----

    /** `RL_MoveToNext` */
    method RLMoveToNext()
      requires Consistent()
      modifies this`level, ancestorsIdx
      ensures Consistent() && Path() == RLNext(relation.root, old(Path()))
      ensures Rank(relation.root, Path()) ==
        var r := old(Rank(relation.root, Path())); if r < |Recs(relation.root)| then r + 1 else r
    {
      Here();
      NextByOne(relation.root, relation.depth, Path());
      if EntryIndex() == |CurrNode().keys| { MoveToNext(); }
      MoveToNext();
    }

    /** `RL_MoveToPrevious` */
    method RLMoveToPrevious()
      requires Consistent()
      modifies this`level, ancestorsIdx
      ensures Consistent() && Path() == RLPrev(relation.root, old(Path()))
      ensures Rank(relation.root, Path()) ==
        var r := old(Rank(relation.root, Path())); if r > 0 then r - 1 else 0
    {
      Here();
      PrevByOne(relation.root, relation.depth, Path());
      if EntryIndex() == 0 { MoveToPrev(); }
      MoveToPrev();
    }

    /** `RL_MoveToFirst` */
    method RLMoveToFirst() returns (b: bool)
      requires Consistent()
      modifies this`level, ancestorsIdx
      ensures Consistent() && Path() == FirstPath(relation.root) && Rank(relation.root, Path()) == 0
      ensures b <==> Recs(relation.root) != []
    {
      ghost var root, h := relation.root, relation.depth;
      level := -1;
      WFShape(root, h, Open, Open, true);
      FirstRank(root, h, Open, Open, true);
      MoveToFirst(relation.root, 0, h);
      assert Path() == FirstPath(root);
      b := IsValid();
    }

    /** `RL_IsEmpty` */
    method RLIsEmpty() returns (b: bool)
      requires Consistent()
      ensures b <==> Recs(relation.root) == []
    {
      EmptyRoot(relation.root, relation.depth);
      return |relation.root.keys| == 0;
    }

    /** The step over the end of a leaf with which `RL_GetKey` and `RL_GetRecord` begin,
        and the record they then read. */
    method GetCurrent() returns (key: Key, rec: Value)
      requires Consistent() && Valid(relation.root, Path())
      modifies this`level, ancestorsIdx
      ensures Consistent() && Path() == Current(relation.root, old(Path()))
      ensures Rank(relation.root, Path()) == old(Rank(relation.root, Path())) < |Recs(relation.root)|
      ensures (key, rec) == Recs(relation.root)[Rank(relation.root, Path())]
    {
      Here();
      CurrentRecord(relation.root, relation.depth, Path());
      if EntryIndex() == |CurrNode().keys| { MoveToNext(); }
      Here();
      key, rec := CurrNode().keys[EntryIndex()], CurrNode().recs[EntryIndex()];
    }

    /** `RL_GetKey` */
    method RLGetKey() returns (key: Key)
      requires Consistent() && Valid(relation.root, Path())
      modifies this`level, ancestorsIdx
      ensures Consistent() && Path() == Current(relation.root, old(Path()))
      ensures Rank(relation.root, Path()) == old(Rank(relation.root, Path())) < |Recs(relation.root)|
      ensures key == Recs(relation.root)[Rank(relation.root, Path())].0
    {
      var rec;
      key, rec := GetCurrent();
    }

    /** `RL_GetRecord` */
    method RLGetRecord() returns (rec: Value)
      requires Consistent() && Valid(relation.root, Path())
      modifies this`level, ancestorsIdx
      ensures Consistent() && Path() == Current(relation.root, old(Path()))
      ensures Rank(relation.root, Path()) == old(Rank(relation.root, Path())) < |Recs(relation.root)|
      ensures rec == Recs(relation.root)[Rank(relation.root, Path())].1
    {
      var key;
      key, rec := GetCurrent();
    }

    /** `RL_MoveToKey`: true exactly when the key is stored, and then the cursor is on
        its record. */
    method RLMoveToKey(key: Key) returns (found: bool)
      requires Consistent()
      modifies this`level, ancestorsIdx
      ensures Consistent() && Rank(relation.root, Path()) == Pos(Recs(relation.root), key)
      ensures found <==> key in ToMap(Recs(relation.root))
      ensures found ==> Valid(relation.root, Path()) && Rank(relation.root, Path()) < |Recs(relation.root)|
      ensures found ==> Recs(relation.root)[Rank(relation.root, Path())] == (key, ToMap(Recs(relation.root))[key])
    {
      ghost var root, h := relation.root, relation.depth;
      GoToKey(key);
      FoundIffStored(root, h, key);
      RecsOrdered(root, h, Open, Open, true);
      ToMapHas(Recs(root), key);
      var valid := IsValid();
      if !valid { return false; }
      var k := RLGetKey();
      ValidIsRank(root, h, Path());
      return k == key;
    }

    // ---- putting a record ----

    /** `putEntry` is about to work at the current level on the way up: what the node one
        level down became has split, and its upper half waits in the new entry. */
    ghost predicate Climbing(e: NewEntry, key: Key, root: Node, v: Value)
      reads this, relation, ancestorsIdx
    {
      var h := relation.depth;
      && ancestorsIdx.Length == MAX_TREE_DEPTH && -1 <= level <= h < MAX_TREE_DEPTH
      && Tree(root, h) && relation.numRecords == |Recs(root)|
      && ancestorsIdx[..h + 1] == KeyPath(root, key)
      && if level == h then relation.root == root && e == Record(key, v) else SplitBelow(e, key, root, v)
    }

    ghost predicate SplitBelow(e: NewEntry, key: Key, root: Node, v: Value)
      requires -1 <= level < relation.depth && Tree(root, relation.depth)
      reads this, relation
    {
      var h := relation.depth;
      var g := PutAt(root, h, Open, Open, true, level + 1, key, v);
      && g.Two? && e == Child(g.sep, g.right)
      && relation.root == Plug(root, KeyPath(root, key), level + 1, g.left)
      && |Upsert(Recs(root), key, v)| == |Recs(root)| + 1
    }

    /** The tree after the put, and the cursor on the record. */
    ghost predicate Done(key: Key, root: Node, h: nat, v: Value)
      requires Tree(root, h)
      reads this, relation, ancestorsIdx
    {
      && relation.root == Rooted(Put(root, h, Open, Open, true, key, v))
      && relation.depth == h + Taller(Put(root, h, Open, Open, true, key, v))
      && relation.numRecords == |Upsert(Recs(root), key, v)|
      && ancestorsIdx.Length == MAX_TREE_DEPTH && 0 <= level < MAX_TREE_DEPTH && level == relation.depth
      && Path() == KeyPath(relation.root, key)
    }

    /** `putEntry` */
    method PutEntry(e: NewEntry, key: Key, ghost root: Node, ghost v: Value)
      requires Climbing(e, key, root, v)
      requires relation.depth + Taller(Put(root, relation.depth, Open, Open, true, key, v)) < MAX_TREE_DEPTH
      modifies this`level, ancestorsIdx, relation
      ensures Done(key, root, old(relation.depth), v)
      decreases level + 1, 1
    {
      if level == -1 {
        NewRoot(e, key, root, v);
      } else {
        NodeHere(e, key, root, v);
        if CurrNode().Leaf? {
          PutInLeafEntry(e, key, root, v);
        } else {
          PutInInnerEntry(e, key, root, v);
        }
      }
    }

    lemma NodeHere(e: NewEntry, key: Key, root: Node, v: Value)
      requires Climbing(e, key, root, v) && level >= 0
      ensures CurrNode().Leaf? <==> level == relation.depth
      ensures CurrNode() == NodeAt(relation.root, KeyPath(root, key), level)
    {
      var h := relation.depth;
      NodeAtTake(relation.root, ancestorsIdx[..], h + 1, level);
      if level == h {
        PutAtNode(root, h, Open, Open, true, h, key, v);
      } else {
        AboveSplit(root, h, level, key, v);
      }
    }

    /** The root has been split: the new entry is the only one of a new root. */
    method NewRoot(e: NewEntry, key: Key, ghost root: Node, ghost v: Value)
      requires Climbing(e, key, root, v) && level == -1
      requires relation.depth + Taller(Put(root, relation.depth, Open, Open, true, key, v)) < MAX_TREE_DEPTH
      modifies this`level, ancestorsIdx, relation
      ensures Done(key, root, old(relation.depth), v)
    {
      ghost var h := relation.depth;
      PutRoot(root, h, key, v);
      var n := Inner(true, true, [e.key], [relation.root, e.child]);
      relation.root := n;
      relation.depth := relation.depth + 1;
      relation.numRecords := relation.numRecords + 1;
      WFShape(n, h + 1, Open, Open, true);
      MoveToKey(n, key, 0, h + 1);
      assert Path() == KeyPath(n, key);
    }

    /** The node at the current level becomes `n`. */
    method WriteNode(n: Node, ghost e: NewEntry, ghost key: Key, ghost root: Node, ghost v: Value)
      requires Climbing(e, key, root, v) && 0 <= level
      modifies relation`root
      ensures relation.root == Plug(root, KeyPath(root, key), level, n)
    {
      ghost var h := relation.depth;
      PlugTake(relation.root, ancestorsIdx[..], h + 1, level, n);
      if level < h {
        AbovePlug(root, h, level, key, PutAt(root, h, Open, Open, true, level + 1, key, v).left, n);
      }
      relation.root := Plug(relation.root, ancestorsIdx[..], level, n);
    }

    /** The climb ended at an interior node, which now is `n`: the record is counted, and
        the cursor goes down to it again. */
    method AfterRoom(n: Node, ghost e: NewEntry, key: Key, ghost root: Node, ghost v: Value)
      requires Climbing(e, key, root, v) && 0 <= level < relation.depth
      requires PutAt(root, relation.depth, Open, Open, true, level, key, v) == One(n)
      requires |Upsert(Recs(root), key, v)| == |Recs(root)| + 1
      modifies this`level, ancestorsIdx, relation
      ensures Done(key, root, old(relation.depth), v)
    {
      NoSplit(root, relation.depth, level, key, v, n);
      WriteNode(n, e, key, root, v);
      relation.numRecords := relation.numRecords + 1;
      DescendAgain(n, key, relation.depth, KeyPath(root, key));
    }

    /** From the current level down to the key, below the node `n` that is there now. */
    method DescendAgain(n: Node, key: Key, ghost h: nat, ghost path: seq<nat>)
      requires ancestorsIdx.Length == MAX_TREE_DEPTH && 0 <= level <= h < MAX_TREE_DEPTH
      requires ancestorsIdx[..h + 1] == path && Shape(n, h - level)
      modifies this`level, ancestorsIdx
      ensures level == h && Path() == path[..old(level)] + KeyPath(n, key)
    {
      TakeTake(ancestorsIdx[..], level, h + 1);
      MoveToKey(n, key, level, h - level);
    }

    method PutInInnerEntry(e: NewEntry, key: Key, ghost root: Node, ghost v: Value)
      requires Climbing(e, key, root, v) && 0 <= level < relation.depth
      requires relation.depth + Taller(Put(root, relation.depth, Open, Open, true, key, v)) < MAX_TREE_DEPTH
      modifies this`level, ancestorsIdx, relation
      ensures Done(key, root, old(relation.depth), v)
      decreases level + 1, 0
    {
      NodeHere(e, key, root, v);
      AboveSplit(root, relation.depth, level, key, v);
      var node := CurrNode();
      assert EntryIndex() == KeyPath(root, key)[level] by {
        assert ancestorsIdx[..relation.depth + 1][level] == ancestorsIdx[level];
      }
      if |node.keys| < FANOUT {
        var n := AddToInner(node, EntryIndex(), Entry(e.key, e.child));
        AfterRoom(n, e, key, root, v);
      } else {
        var left, s, r := SplitInner(node, Entry(e.key, e.child));
        AfterSplit(left, s, r, e, key, root, v);
      }
    }

    /** What `putEntry` finds at the leaf. */
    lemma AtLeaf(e: NewEntry, key: Key, root: Node, v: Value)
      requires Climbing(e, key, root, v) && level == relation.depth
      ensures CurrNode().Leaf? && |CurrNode().recs| == |CurrNode().keys| <= FANOUT
      ensures EntryIndex() == RecIdx(CurrNode().keys, key)
      ensures PutAt(root, relation.depth, Open, Open, true, level, key, v) == PutInLeaf(CurrNode(), key, v)
      ensures |Upsert(Recs(root), key, v)| == |Recs(root)| +
        if EntryIndex() < |CurrNode().keys| && CurrNode().keys[EntryIndex()] == key then 0 else 1
    {
      NodeHere(e, key, root, v);
      PutAtNode(root, relation.depth, Open, Open, true, level, key, v);
      SearchNodeIs(root, relation.depth, Open, Open, true, level, key);
      CountAfterPut(root, relation.depth, key, v);
      assert ancestorsIdx[..relation.depth + 1][level] == ancestorsIdx[level];
    }

    method PutInLeafEntry(e: NewEntry, key: Key, ghost root: Node, ghost v: Value)
      requires Climbing(e, key, root, v) && level == relation.depth
      requires relation.depth + Taller(Put(root, relation.depth, Open, Open, true, key, v)) < MAX_TREE_DEPTH
      modifies this`level, ancestorsIdx, relation
      ensures Done(key, root, old(relation.depth), v)
      decreases level + 1, 0
    {
      AtLeaf(e, key, root, v);
      var node := CurrNode();
      if EntryIndex() < |node.keys| && node.keys[EntryIndex()] == e.key {
        var n := node.(recs := node.recs[EntryIndex() := e.rec]);
        WriteLeaf(n, e, key, root, v);
      } else if |node.keys| < FANOUT {
        var n := AddToLeaf(node, EntryIndex(), Entry(e.key, e.rec));
        WriteLeaf(n, e, key, root, v);
        relation.numRecords := relation.numRecords + 1;
      } else {
        var left, s, r := SplitLeaf(node, Entry(e.key, e.rec));
        AfterSplit(left, s, r, e, key, root, v);
      }
    }

    /** The lower half of a split node stays; its upper half goes one level up. */
    method AfterSplit(left: Node, s: Key, r: Node, ghost e: NewEntry, key: Key, ghost root: Node, ghost v: Value)
      requires Climbing(e, key, root, v) && 0 <= level
      requires PutAt(root, relation.depth, Open, Open, true, level, key, v) == Two(left, s, r)
      requires |Upsert(Recs(root), key, v)| == |Recs(root)| + 1
      requires relation.depth + Taller(Put(root, relation.depth, Open, Open, true, key, v)) < MAX_TREE_DEPTH
      modifies this`level, ancestorsIdx, relation
      ensures Done(key, root, old(relation.depth), v)
      decreases level, 2
    {
      WriteNode(left, e, key, root, v);
      level := level - 1;
      PutEntry(Child(s, r), key, root, v);
    }

    /** The leaf becomes `n`, and nothing above it changes. */
    method WriteLeaf(n: Node, ghost e: NewEntry, ghost key: Key, ghost root: Node, ghost v: Value)
      requires Climbing(e, key, root, v) && level == relation.depth
      requires PutAt(root, relation.depth, Open, Open, true, level, key, v) == One(n)
      modifies relation`root
      ensures Put(root, relation.depth, Open, Open, true, key, v) == One(relation.root)
      ensures Path() == KeyPath(relation.root, key)
    {
      LeafDone(e, key, root, v, n);
      WriteNode(n, e, key, root, v);
    }

    lemma LeafDone(e: NewEntry, key: Key, root: Node, v: Value, n: Node)
      requires Climbing(e, key, root, v) && level == relation.depth
      requires PutAt(root, relation.depth, Open, Open, true, level, key, v) == One(n)
      ensures var root' := Plug(root, KeyPath(root, key), level, n);
        Put(root, relation.depth, Open, Open, true, key, v) == One(root') && Path() == KeyPath(root', key)
    {
      var h, path := relation.depth, KeyPath(root, key);
      PutAtNode(root, h, Open, Open, true, h, key, v);
      SameIdx(NodeAt(root, path, h), key, v);
      NoSplit(root, h, h, key, v, n);
      assert path[..h] + [path[h]] == path;
    }

    /** After `putEntry` the relation is in order and the cursor on the record. */
    lemma DoneIsConsistent(key: Key, root: Node, h: nat, v: Value)
      requires Tree(root, h) && Done(key, root, h, v)
      ensures Consistent() && Recs(relation.root) == Upsert(Recs(root), key, v)
      ensures Rank(relation.root, Path()) == Pos(Recs(relation.root), key) < |Recs(relation.root)|
    {
      PutRoot(root, h, key, v);
      FoundIffStored(relation.root, relation.depth, key);
      UpsertPlace(root, h, key, v);
    }

    /** `RL_PutRecord`: an update of the map of records, which keeps the B+-tree in order,
        counts the records, and leaves the cursor just after the key. It is up to the caller
        that the tree does not grow past MAX_TREE_DEPTH levels; `PutFits` shows that with
        fewer than 2^61 records it never does. */
    method RLPutRecord(key: Key, record: Value)
      requires Consistent()
      requires relation.depth + Taller(Put(relation.root, relation.depth, Open, Open, true, key, record)) < MAX_TREE_DEPTH
      modifies this`level, ancestorsIdx, relation
      ensures Consistent()
      ensures Recs(relation.root) == Upsert(old(Recs(relation.root)), key, record)
      ensures ToMap(Recs(relation.root)) == old(ToMap(Recs(relation.root)))[key := record]
      ensures Rank(relation.root, Path()) == Pos(Recs(relation.root), key) + 1
    {
      ghost var root, h := relation.root, relation.depth;
      GoToKey(key);
      PutEntry(Record(key, record), key, root, record);
      PutRoot(root, h, key, record);
      DoneIsConsistent(key, root, h, record);
      RLMoveToNext();
    }
  }

  lemma UpsertPlace(root: Node, h: nat, key: Key, v: Value)
    requires Tree(root, h)
    ensures Pos(Upsert(Recs(root), key, v), key) < |Upsert(Recs(root), key, v)|
  {
    RecsOrdered(root, h, Open, Open, true);
    UpsertHere(Recs(root), key, v);
    UpsertSorted(Recs(root), key, v);
  }

  /** With fewer than 2^61 records after the put, the cursor's slots suffice. */
  lemma PutFits(root: Node, h: nat, key: Key, v: Value)
    requires Tree(root, h) && |Recs(root)| + 1 < 0x2000_0000_0000_0000
    ensures h + Taller(Put(root, h, Open, Open, true, key, v)) < MAX_TREE_DEPTH
  {
    PutSize(root, h, key, v);
    DepthFits(Rooted(Put(root, h, Open, Open, true, key, v)), h + Taller(Put(root, h, Open, Open, true, key, v)), |Recs(root)| + 1);
  }

  lemma PutSize(root: Node, h: nat, key: Key, v: Value)
    requires Tree(root, h)
    ensures Tree(Rooted(Put(root, h, Open, Open, true, key, v)), h + Taller(Put(root, h, Open, Open, true, key, v)))
    ensures |Recs(Rooted(Put(root, h, Open, Open, true, key, v)))| <= |Recs(root)| + 1
  {
    PutRoot(root, h, key, v);
    UpsertHere(Recs(root), key, v);
  }

  /** Only the root can be without keys, and then it is a leaf. */
  lemma EmptyRoot(root: Node, h: nat)
    requires Tree(root, h)
    ensures root.keys == [] <==> Recs(root) == []
  {
    if root.Inner? {
      RecsSplit(root.kids, 0);
      RanksPositive(root.kids[0], h - 1, KidLo(root.keys, 0, Open), KidHi(root.keys, 0, Open));
    }
  }

  // ---- what the loops of the moves rely on ----

  lemma Snoc(idx: seq<nat>, lvl: nat, i: nat, p: seq<nat>)
    requires lvl < |idx|
    ensures idx[lvl := i][..lvl + 1] + p == idx[..lvl] + ([i] + p)
  {
  }

  /** Where the climb stops, the descent completes the search path from the root. */
  lemma FingerLands(root: Node, h: nat, idx: seq<nat>, key: Key)
    requires Tree(root, h) && h < |idx| && IsPath(root, idx[..h + 1])
    ensures IsPath(root, KeyPath(root, key)) && |KeyPath(root, key)| == h + 1
    ensures Shape(NodeAt(root, idx, Ascend(root, idx, h, key)), h - Ascend(root, idx, h, key))
    ensures KeyPath(root, key)
      == idx[..Ascend(root, idx, h, key)] + KeyPath(NodeAt(root, idx, Ascend(root, idx, h, key)), key)
  {
    FingerShape(root, h, idx, Ascend(root, idx, h, key));
    FingerPath(root, h, idx, key);
    KeyPathIsPath(root, h, Open, Open, true, key);
  }

  lemma FingerShape(root: Node, h: nat, idx: seq<nat>, l: nat)
    requires Tree(root, h) && l <= h < |idx| && IsPath(root, idx[..h + 1])
    ensures Shape(NodeAt(root, idx, l), h - l)
  {
    NodeAtTake(root, idx, h + 1, l);
    ShapeAt(root, h, idx[..h + 1], l);
  }

  lemma FingerPath(root: Node, h: nat, idx: seq<nat>, key: Key)
    requires Tree(root, h) && h < |idx| && IsPath(root, idx[..h + 1])
    ensures KeyPath(root, key)
      == idx[..Ascend(root, idx, h, key)] + KeyPath(NodeAt(root, idx, Ascend(root, idx, h, key)), key)
  {
    var l := Ascend(root, idx, h, key);
    AscendTake(root, idx, h + 1, h, key);
    NodeAtTake(root, idx, h + 1, l);
    FingerIsRootSearch(root, h, idx[..h + 1], h, key);
    TakeTake(idx, l, h + 1);
  }

  lemma TakeTake(idx: seq<nat>, l: nat, m: nat)
    requires l <= m <= |idx|
    ensures idx[..m][..l] == idx[..l]
  {
  }

  lemma {:induction false} AscendTake(n: Node, path: seq<nat>, m: nat, level: nat, key: Key)
    requires level < m <= |path|
    ensures Ascend(n, path[..m], level, key) == Ascend(n, path, level, key)
    decreases level
  {
    NodeAtTake(n, path, m, level);
    if level > 0 { AscendTake(n, path, m, level - 1, key); }
  }

  /** At the last pointer, with everything below stuck, the forward move is stuck here. */
  lemma NextStuckUp(root: Node, h: nat, path: seq<nat>, level: nat)
    requires Tree(root, h) && IsPath(root, path) && 0 < level < |path|
    requires path[level] == |NodeAt(root, path, level).keys|
    requires level < h ==> Next(NodeAt(root, path, level + 1), path[level + 1..]).Stuck?
    ensures Next(NodeAt(root, path, level), path[level..]).Stuck?
  {
    NodeAtWF(root, h, Open, Open, true, path, level);
    if level < h {
      NodeAtNext(root, path, level);
      assert path[level..][1..] == path[level + 1..];
    }
  }

  lemma PrevStuckUp(root: Node, h: nat, path: seq<nat>, level: nat)
    requires Tree(root, h) && IsPath(root, path) && 0 < level < |path|
    requires path[level] == 0
    requires level < h ==> Prev(NodeAt(root, path, level + 1), path[level + 1..]).Stuck?
    ensures Prev(NodeAt(root, path, level), path[level..]).Stuck?
  {
    NodeAtWF(root, h, Open, Open, true, path, level);
    if level < h {
      NodeAtNext(root, path, level);
      assert path[level..][1..] == path[level + 1..];
    }
  }

  lemma MoveNextKeeps(root: Node, h: nat, path: seq<nat>)
    requires Tree(root, h) && IsPath(root, path)
    ensures IsPath(root, MoveNext(root, path)) && |MoveNext(root, path)| == |path| == h + 1
  {
    NextRank(root, h, Open, Open, true, path);
    RankBound(root, h, Open, Open, true, path);
    RankBound(root, h, Open, Open, true, MoveNext(root, path));
  }

  lemma MovePrevKeeps(root: Node, h: nat, path: seq<nat>)
    requires Tree(root, h) && IsPath(root, path)
    ensures IsPath(root, MovePrev(root, path)) && |MovePrev(root, path)| == |path| == h + 1
  {
    PrevRank(root, h, Open, Open, true, path);
    RankBound(root, h, Open, Open, true, path);
    RankBound(root, h, Open, Open, true, MovePrev(root, path));
  }

  /** Where the ascent stops, the move goes one pointer on and then down the first ones. */
  ghost predicate NextTurn(root: Node, h: nat, path: seq<nat>, level: nat) {
    && level < |path| == h + 1
    && var m := NodeAt(root, path, level);
      if m.Leaf? then level == h && MoveNext(root, path) == path[..level] + [path[level] + 1]
      else
        && path[level] + 1 < |m.kids| && level < h && Shape(m.kids[path[level] + 1], h - level - 1)
        && MoveNext(root, path) == path[..level] + ([path[level] + 1] + FirstPath(m.kids[path[level] + 1]))
  }

  ghost predicate PrevTurn(root: Node, h: nat, path: seq<nat>, level: nat) {
    && level < |path| == h + 1 && path[level] > 0
    && var m := NodeAt(root, path, level);
      if m.Leaf? then level == h && MovePrev(root, path) == path[..level] + [path[level] - 1]
      else
        && path[level] <= |m.kids| && level < h && Shape(m.kids[path[level] - 1], h - level - 1)
        && MovePrev(root, path) == path[..level] + ([path[level] - 1] + LastPath(m.kids[path[level] - 1]))
  }

  lemma ShapeAt(root: Node, h: nat, path: seq<nat>, level: nat)
    requires Tree(root, h) && IsPath(root, path) && level < |path|
    ensures |path| == h + 1 && Shape(NodeAt(root, path, level), h - level) && IsPath(NodeAt(root, path, level), path[level..])
    ensures level == 0 ==> path[level..] == path
    ensures level < h ==> path[level..][1..] == path[level + 1..]
    ensures level < h ==> NodeAt(root, path, level).Inner? && path[level] < |NodeAt(root, path, level).kids|
    ensures level < h ==> NodeAt(root, path, level + 1) == NodeAt(root, path, level).kids[path[level]]
  {
    NodeAtWF(root, h, Open, Open, true, path, level);
    WFShape(NodeAt(root, path, level), h - level, LoAt(root, path, level, Open), HiAt(root, path, level, Open), level == 0);
    if level < h { NodeAtNext(root, path, level); }
  }

  lemma NextTurns(root: Node, h: nat, path: seq<nat>, level: nat)
    requires Tree(root, h) && IsPath(root, path) && level < |path| && Next(root, path).To?
    requires level > 0 ==> path[level] != |NodeAt(root, path, level).keys|
    requires level < h ==> Next(NodeAt(root, path, level + 1), path[level + 1..]).Stuck?
    ensures NextTurn(root, h, path, level)
  {
    ShapeAt(root, h, path, level);
    NextLifts(root, path, level);
  }

  lemma PrevTurns(root: Node, h: nat, path: seq<nat>, level: nat)
    requires Tree(root, h) && IsPath(root, path) && level < |path| && Prev(root, path).To?
    requires level > 0 ==> path[level] != 0
    requires level < h ==> Prev(NodeAt(root, path, level + 1), path[level + 1..]).Stuck?
    ensures PrevTurn(root, h, path, level)
  {
    ShapeAt(root, h, path, level);
    PrevLifts(root, path, level);
  }
}
