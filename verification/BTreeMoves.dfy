/** Cursor positions as ranks in the sorted sequence of records, and the moves
    between them. */
module BTreeMoves {
  import opened BTree

  /** The number of records before a position. The end of a leaf and the start of the
      next leaf have the same rank. */
  function Rank(n: Node, path: seq<nat>): nat
    decreases |path|
  {
    if path == [] then 0
    else match n
      case Leaf(_, _, _, _) => path[0]
      case Inner(_, _, _, kids) =>
        if path[0] < |kids| then |RecsOf(kids[..path[0]])| + Rank(kids[path[0]], path[1..]) else 0
  }

  /** The index in the leaf, and the number of records there. */
  function LeafIdx(path: seq<nat>): nat
    requires path != []
  {
    path[|path| - 1]
  }

  function LeafOf(n: Node, path: seq<nat>): Node
    requires path != []
  {
    NodeAt(n, path, |path| - 1)
  }

  predicate AtLeafEnd(n: Node, path: seq<nat>)
    requires path != []
  {
    LeafIdx(path) >= |LeafOf(n, path).keys|
  }

  lemma LeafBelow(n: Node, path: seq<nat>)
    requires n.Inner? && IsPath(n, path)
    ensures LeafIdx(path) == LeafIdx(path[1..]) && LeafOf(n, path) == LeafOf(n.kids[path[0]], path[1..])
  {
  }

  lemma {:induction false} RankBound(n: Node, h: nat, lo: End, hi: End, root: bool, path: seq<nat>)
    requires WF(n, h, lo, hi, root) && IsPath(n, path)
    ensures Rank(n, path) <= |Recs(n)| && |path| == h + 1 && LeafOf(n, path).Leaf?
    ensures LeafIdx(path) <= |LeafOf(n, path).keys|
    decreases h
  {
    if n.Inner? {
      RecsSplit(n.kids, path[0]);
      LeafBelow(n, path);
      RankBound(n.kids[path[0]], h - 1, KidLo(n.keys, path[0], lo), KidHi(n.keys, path[0], hi), false, path[1..]);
    }
  }

  /** All leaves at depth `h` and one kid more than keys: what a descent needs. */
  ghost predicate Shape(n: Node, h: nat)
    decreases h
  {
    match n
    case Leaf(_, _, keys, recs) => h == 0 && |recs| == |keys|
    case Inner(_, _, keys, kids) =>
      h > 0 && keys != [] && |kids| == |keys| + 1 && forall i :: 0 <= i < |kids| ==> Shape(kids[i], h - 1)
  }

  lemma {:induction false} WFShape(n: Node, h: nat, lo: End, hi: End, root: bool)
    requires WF(n, h, lo, hi, root)
    ensures Shape(n, h)
    decreases h
  {
    if n.Inner? {
      forall i | 0 <= i < |n.kids| ensures Shape(n.kids[i], h - 1) {
        WFShape(n.kids[i], h - 1, KidLo(n.keys, i, lo), KidHi(n.keys, i, hi), false);
      }
    }
  }

  // ---- the two ends ----

  function FirstPath(n: Node): seq<nat> {
    match n
    case Leaf(_, _, _, _) => [0]
    case Inner(_, _, _, kids) => if kids == [] then [0] else [0] + FirstPath(kids[0])
  }

  function LastPath(n: Node): seq<nat> {
    match n
    case Leaf(_, _, keys, _) => [|keys|]
    case Inner(_, _, _, kids) => if kids == [] then [0] else [|kids| - 1] + LastPath(kids[|kids| - 1])
  }

  lemma {:induction false} FirstRank(n: Node, h: nat, lo: End, hi: End, root: bool)
    requires WF(n, h, lo, hi, root)
    ensures IsPath(n, FirstPath(n)) && Rank(n, FirstPath(n)) == 0 && LeafIdx(FirstPath(n)) == 0
    ensures !root ==> !AtLeafEnd(n, FirstPath(n))
    decreases h
  {
    if n.Inner? {
      FirstRank(n.kids[0], h - 1, KidLo(n.keys, 0, lo), KidHi(n.keys, 0, hi), false);
      assert FirstPath(n)[1..] == FirstPath(n.kids[0]);
      assert n.kids[..0] == [];
    }
  }

  lemma PrefixRank(n: Node, i: nat, p: seq<nat>)
    requires n.Inner? && i < |n.kids| && IsPath(n.kids[i], p)
    ensures IsPath(n, [i] + p) && Rank(n, [i] + p) == |RecsOf(n.kids[..i])| + Rank(n.kids[i], p)
    ensures p != [] && LeafIdx([i] + p) == LeafIdx(p) && LeafOf(n, [i] + p) == LeafOf(n.kids[i], p)
  {
    assert ([i] + p)[1..] == p;
    LeafBelow(n, [i] + p);
  }

  lemma {:induction false} LastRank(n: Node, h: nat)
    requires Shape(n, h)
    ensures IsPath(n, LastPath(n)) && Rank(n, LastPath(n)) == |Recs(n)|
    decreases h
  {
    if n.Inner? {
      var i := |n.kids| - 1;
      LastRank(n.kids[i], h - 1);
      PrefixRank(n, i, LastPath(n.kids[i]));
      CountTo(n.kids, i + 1);
      assert n.kids[..i + 1] == n.kids;
    }
  }

  /** Below the root the last position is behind a record. */
  lemma {:induction false} LastInLeaf(n: Node, h: nat, lo: End, hi: End)
    requires WF(n, h, lo, hi, false)
    ensures LastPath(n) != [] && LeafIdx(LastPath(n)) > 0
    decreases h
  {
    if n.Inner? {
      var i := |n.kids| - 1;
      LastInLeaf(n.kids[i], h - 1, KidLo(n.keys, i, lo), KidHi(n.keys, i, hi));
    }
  }

  // ---- one move ----

  datatype Move = Stuck | To(path: seq<nat>)

  /** `moveToNext` within a subtree: one record on in the leaf, or from the end of a
      leaf to the start of the next one. */
  function Next(n: Node, path: seq<nat>): Move
    decreases |path|
  {
    if path == [] then Stuck
    else match n
      case Leaf(_, _, keys, _) => if path[0] < |keys| then To([path[0] + 1]) else Stuck
      case Inner(_, _, _, kids) =>
        if path[0] >= |kids| then Stuck
        else match Next(kids[path[0]], path[1..])
          case To(p) => To([path[0]] + p)
          case Stuck =>
            if path[0] + 1 < |kids| then To([path[0] + 1] + FirstPath(kids[path[0] + 1])) else Stuck
  }

  /** `moveToPrev` within a subtree. */
  function Prev(n: Node, path: seq<nat>): Move
    decreases |path|
  {
    if path == [] then Stuck
    else match n
      case Leaf(_, _, _, _) => if path[0] > 0 then To([path[0] - 1]) else Stuck
      case Inner(_, _, _, kids) =>
        if path[0] >= |kids| then Stuck
        else match Prev(kids[path[0]], path[1..])
          case To(p) => To([path[0]] + p)
          case Stuck =>
            if path[0] > 0 then To([path[0] - 1] + LastPath(kids[path[0] - 1])) else Stuck
  }

  /** The start of a later kid has the rank of the end of the kid before it. */
  lemma CrossOn(n: Node, h: nat, lo: End, hi: End, root: bool, i: nat)
    requires WF(n, h, lo, hi, root) && n.Inner? && 0 < i < |n.kids|
    ensures IsPath(n, [i] + FirstPath(n.kids[i])) && Rank(n, [i] + FirstPath(n.kids[i])) == |RecsOf(n.kids[..i])|
    ensures !AtLeafEnd(n, [i] + FirstPath(n.kids[i]))
  {
    FirstRank(n.kids[i], h - 1, KidLo(n.keys, i, lo), KidHi(n.keys, i, hi), false);
    PrefixRank(n, i, FirstPath(n.kids[i]));
  }

  /** A forward move adds one to the rank, or crosses from the end of a leaf to the
      start of the next; it is stuck only behind the last record. */
  lemma {:induction false} NextRank(n: Node, h: nat, lo: End, hi: End, root: bool, path: seq<nat>)
    requires WF(n, h, lo, hi, root) && IsPath(n, path)
    ensures match Next(n, path)
      case To(p) =>
        && IsPath(n, p)
        && (if AtLeafEnd(n, path) then Rank(n, p) == Rank(n, path) && !AtLeafEnd(n, p)
            else Rank(n, p) == Rank(n, path) + 1)
      case Stuck => AtLeafEnd(n, path) && Rank(n, path) == |Recs(n)|
    decreases h
  {
    if n.Inner? {
      var i := path[0];
      NextRank(n.kids[i], h - 1, KidLo(n.keys, i, lo), KidHi(n.keys, i, hi), false, path[1..]);
      LeafBelow(n, path);
      RecsSplit(n.kids, i);
      match Next(n.kids[i], path[1..]) {
        case To(p) => PrefixRank(n, i, p);
        case Stuck =>
          if i + 1 < |n.kids| {
            CrossOn(n, h, lo, hi, root, i + 1);
          } else {
            assert n.kids[i + 1..] == [];
          }
      }
    }
  }

  /** The end of the kid before kid `i` has the rank of the start of kid `i`. */
  lemma CrossBack(n: Node, h: nat, lo: End, hi: End, root: bool, i: nat)
    requires WF(n, h, lo, hi, root) && n.Inner? && 0 < i < |n.kids|
    ensures var p := [i - 1] + LastPath(n.kids[i - 1]);
      IsPath(n, p) && Rank(n, p) == |RecsOf(n.kids[..i])| && LeafIdx(p) > 0
  {
    var j := i - 1;
    var last := LastPath(n.kids[j]);
    WFShape(n.kids[j], h - 1, KidLo(n.keys, j, lo), KidHi(n.keys, j, hi), false);
    LastRank(n.kids[j], h - 1);
    LastInLeaf(n.kids[j], h - 1, KidLo(n.keys, j, lo), KidHi(n.keys, j, hi));
    PrefixRank(n, j, last);
    CountTo(n.kids, i);
  }

  lemma CountTo(kids: seq<Node>, i: nat)
    requires 0 < i <= |kids|
    ensures |RecsOf(kids[..i])| == |RecsOf(kids[..i - 1])| + |Recs(kids[i - 1])|
  {
    RecsTo(kids, i - 1);
  }

  lemma {:induction false} PrevRank(n: Node, h: nat, lo: End, hi: End, root: bool, path: seq<nat>)
    requires WF(n, h, lo, hi, root) && IsPath(n, path)
    ensures match Prev(n, path)
      case To(p) =>
        && IsPath(n, p)
        && (if LeafIdx(path) == 0 then Rank(n, p) == Rank(n, path) && LeafIdx(p) > 0
            else Rank(n, p) == Rank(n, path) - 1)
      case Stuck => LeafIdx(path) == 0 && Rank(n, path) == 0
    decreases h
  {
    if n.Inner? {
      var i := path[0];
      PrevRank(n.kids[i], h - 1, KidLo(n.keys, i, lo), KidHi(n.keys, i, hi), false, path[1..]);
      LeafBelow(n, path);
      match Prev(n.kids[i], path[1..]) {
        case To(p) => PrefixRank(n, i, p);
        case Stuck =>
          if i > 0 {
            CrossBack(n, h, lo, hi, root, i);
          } else {
            assert n.kids[..0] == [];
          }
      }
    }
  }

  // ---- whole cursor operations, on the root ----

  ghost predicate Tree(root: Node, h: nat) {
    WF(root, h, Open, Open, true)
  }

  /** `isValid`: not at the end of the leaf whose Last flag is set. */
  predicate Valid(root: Node, path: seq<nat>)
    requires path != []
  {
    !(AtLeafEnd(root, path) && LeafOf(root, path).last)
  }

  /** `isFirst`: at the start of the leaf whose First flag is set. */
  predicate First(root: Node, path: seq<nat>)
    requires path != []
  {
    LeafIdx(path) == 0 && LeafOf(root, path).first
  }

  function MoveNext(root: Node, path: seq<nat>): seq<nat> {
    match Next(root, path) case To(p) => p case Stuck => path
  }

  function MovePrev(root: Node, path: seq<nat>): seq<nat> {
    match Prev(root, path) case To(p) => p case Stuck => path
  }

  /** `RL_MoveToNext` */
  function RLNext(root: Node, path: seq<nat>): seq<nat>
    requires path != []
  {
    MoveNext(root, if AtLeafEnd(root, path) then MoveNext(root, path) else path)
  }

  /** `RL_MoveToPrevious` */
  function RLPrev(root: Node, path: seq<nat>): seq<nat>
    requires path != []
  {
    MovePrev(root, if LeafIdx(path) == 0 then MovePrev(root, path) else path)
  }

  /** The path takes the last (first) child at every interior level. */
  predicate OnRight(n: Node, path: seq<nat>)
    decreases |path|
  {
    n.Leaf? || path == [] || path[0] >= |n.kids| || (path[0] == |n.kids| - 1 && OnRight(n.kids[path[0]], path[1..]))
  }

  predicate OnLeft(n: Node, path: seq<nat>)
    decreases |path|
  {
    n.Leaf? || path == [] || path[0] >= |n.kids| || (path[0] == 0 && OnLeft(n.kids[path[0]], path[1..]))
  }

  /** The Last flag of the leaf under the cursor tells whether the forward move is stuck,
      the First flag whether the backward move is. */
  lemma {:induction false} LastTells(n: Node, h: nat, lo: End, hi: End, root: bool, path: seq<nat>)
    requires WF(n, h, lo, hi, root) && IsPath(n, path)
    ensures LeafOf(n, path).last <==> OnRight(n, path) && hi.Open?
    ensures Next(n, path).Stuck? <==> OnRight(n, path) && AtLeafEnd(n, path)
    decreases h
  {
    if n.Inner? {
      var i := path[0];
      LeafBelow(n, path);
      LastTells(n.kids[i], h - 1, KidLo(n.keys, i, lo), KidHi(n.keys, i, hi), false, path[1..]);
    }
  }

  lemma {:induction false} FirstTells(n: Node, h: nat, lo: End, hi: End, root: bool, path: seq<nat>)
    requires WF(n, h, lo, hi, root) && IsPath(n, path)
    ensures LeafOf(n, path).first <==> OnLeft(n, path) && lo.Open?
    ensures Prev(n, path).Stuck? <==> OnLeft(n, path) && LeafIdx(path) == 0
    decreases h
  {
    if n.Inner? {
      var i := path[0];
      LeafBelow(n, path);
      FirstTells(n.kids[i], h - 1, KidLo(n.keys, i, lo), KidHi(n.keys, i, hi), false, path[1..]);
    }
  }

  /** A cursor is valid exactly when there is a record behind it, and moving is stuck
      exactly where the flags say so. */
  lemma ValidIsRank(root: Node, h: nat, path: seq<nat>)
    requires Tree(root, h) && IsPath(root, path)
    ensures Valid(root, path) <==> Rank(root, path) < |Recs(root)|
    ensures Next(root, path).Stuck? <==> !Valid(root, path)
    ensures Prev(root, path).Stuck? <==> First(root, path)
  {
    LastTells(root, h, Open, Open, true, path);
    FirstTells(root, h, Open, Open, true, path);
    NextRank(root, h, Open, Open, true, path);
    RankBound(root, h, Open, Open, true, path);
    if AtLeafEnd(root, path) && !Next(root, path).Stuck? {
      var p := Next(root, path).path;
      NextRank(root, h, Open, Open, true, p);
      RankBound(root, h, Open, Open, true, p);
      if Next(root, p).To? { RankBound(root, h, Open, Open, true, Next(root, p).path); }
    } else if !AtLeafEnd(root, path) {
      RankBound(root, h, Open, Open, true, Next(root, path).path);
    }
  }

  /** `RL_MoveToNext` moves the position in the sorted records by exactly one, or stays
      behind the last; `RL_MoveToPrevious` moves it back by one, or stays at the first. */
  lemma MovesByOne(root: Node, h: nat, path: seq<nat>)
    requires Tree(root, h) && IsPath(root, path)
    ensures var p, q := RLNext(root, path), RLPrev(root, path);
      && IsPath(root, p) && Rank(root, p) == (if Rank(root, path) < |Recs(root)| then Rank(root, path) + 1 else Rank(root, path))
      && IsPath(root, q) && Rank(root, q) == (if Rank(root, path) > 0 then Rank(root, path) - 1 else 0)
  {
    NextByOne(root, h, path);
    PrevByOne(root, h, path);
  }

  lemma NextByOne(root: Node, h: nat, path: seq<nat>)
    requires Tree(root, h) && IsPath(root, path)
    ensures var p := RLNext(root, path);
      IsPath(root, p) && Rank(root, p) == if Rank(root, path) < |Recs(root)| then Rank(root, path) + 1 else Rank(root, path)
  {
    ValidIsRank(root, h, path);
    NextRank(root, h, Open, Open, true, path);
    NextRank(root, h, Open, Open, true, MoveNext(root, path));
  }

  lemma PrevByOne(root: Node, h: nat, path: seq<nat>)
    requires Tree(root, h) && IsPath(root, path)
    ensures var q := RLPrev(root, path);
      IsPath(root, q) && Rank(root, q) == if Rank(root, path) > 0 then Rank(root, path) - 1 else 0
  {
    PrevRank(root, h, Open, Open, true, path);
    PrevRank(root, h, Open, Open, true, MovePrev(root, path));
    RankZero(root, h, Open, Open, true, path);
  }

  /** Only the start of the first leaf has rank 0. */
  lemma {:induction false} RankZero(n: Node, h: nat, lo: End, hi: End, root: bool, path: seq<nat>)
    requires WF(n, h, lo, hi, root) && IsPath(n, path)
    ensures Rank(n, path) == 0 <==> Prev(n, path).Stuck?
    decreases h
  {
    PrevRank(n, h, lo, hi, root, path);
    if n.Inner? {
      var i := path[0];
      RankZero(n.kids[i], h - 1, KidLo(n.keys, i, lo), KidHi(n.keys, i, hi), false, path[1..]);
      if i > 0 {
        RecsSplit(n.kids, i - 1);
        RanksPositive(n.kids[i - 1], h - 1, KidLo(n.keys, i - 1, lo), KidHi(n.keys, i - 1, hi));
      } else {
        assert n.kids[..0] == [];
      }
    }
  }

  /** Below the root no subtree is empty. */
  lemma {:induction false} RanksPositive(n: Node, h: nat, lo: End, hi: End)
    requires WF(n, h, lo, hi, false)
    ensures |Recs(n)| > 0
    decreases h
  {
    if n.Inner? {
      RecsSplit(n.kids, 0);
      RanksPositive(n.kids[0], h - 1, KidLo(n.keys, 0, lo), KidHi(n.keys, 0, hi));
    }
  }

  // ---- the record under the cursor ----

  /** What `RL_GetKey` and `RL_GetRecord` read, after stepping over the end of a leaf. */
  function Current(root: Node, path: seq<nat>): (p: seq<nat>)
    requires path != []
  {
    if AtLeafEnd(root, path) then MoveNext(root, path) else path
  }

  lemma {:induction false} RecordAt(n: Node, h: nat, lo: End, hi: End, root: bool, path: seq<nat>)
    requires WF(n, h, lo, hi, root) && IsPath(n, path) && !AtLeafEnd(n, path)
    ensures Rank(n, path) < |Recs(n)|
    ensures var leaf, i := LeafOf(n, path), LeafIdx(path);
      leaf.Leaf? && i < |leaf.recs| && Recs(n)[Rank(n, path)] == (leaf.keys[i], leaf.recs[i])
    decreases h
  {
    if n.Inner? {
      var i := path[0];
      LeafBelow(n, path);
      RecordAt(n.kids[i], h - 1, KidLo(n.keys, i, lo), KidHi(n.keys, i, hi), false, path[1..]);
      RecsSplit(n.kids, i);
    }
  }

  /** The record read at a valid cursor is the one at its rank. */
  lemma CurrentRecord(root: Node, h: nat, path: seq<nat>)
    requires Tree(root, h) && IsPath(root, path) && Valid(root, path)
    ensures var p := Current(root, path);
      && IsPath(root, p) && Rank(root, p) == Rank(root, path) < |Recs(root)|
      && LeafOf(root, p).Leaf? && LeafIdx(p) < |LeafOf(root, p).keys| && LeafIdx(p) < |LeafOf(root, p).recs|
      && Recs(root)[Rank(root, path)] == (LeafOf(root, p).keys[LeafIdx(p)], LeafOf(root, p).recs[LeafIdx(p)])
  {
    ValidIsRank(root, h, path);
    NextRank(root, h, Open, Open, true, path);
    RecordAt(root, h, Open, Open, true, Current(root, path));
  }

  /** Where `n` forward moves from the first position lead. */
  function Walk(root: Node, n: nat): (p: seq<nat>)
    ensures p != []
    decreases n
  {
    if n == 0 then FirstPath(root)
    else
      var p := RLNext(root, Walk(root, n - 1));
      if p == [] then [0] else p
  }

  ghost predicate WalkedTo(root: Node, n: nat) {
    IsPath(root, Walk(root, n)) && Rank(root, Walk(root, n)) == n
  }

  lemma WalkStart(root: Node, h: nat)
    requires Tree(root, h)
    ensures WalkedTo(root, 0)
  {
    FirstRank(root, h, Open, Open, true);
  }

  lemma WalkOn(root: Node, h: nat, n: nat)
    requires Tree(root, h) && WalkedTo(root, n) && n < |Recs(root)|
    ensures WalkedTo(root, n + 1)
  {
    NextByOne(root, h, Walk(root, n));
  }

  lemma {:induction false} WalkRank(root: Node, h: nat, n: nat)
    requires Tree(root, h) && n <= |Recs(root)|
    ensures WalkedTo(root, n)
  {
    if n == 0 {
      WalkStart(root, h);
    } else {
      WalkRank(root, h, n - 1);
      WalkOn(root, h, n - 1);
    }
  }

  /** A traversal by `RL_MoveToNext` yields every record once, in key order. */
  lemma Traversal(root: Node, h: nat, n: nat)
    requires Tree(root, h) && n <= |Recs(root)|
    ensures IsPath(root, Walk(root, n)) && Rank(root, Walk(root, n)) == n
    ensures Valid(root, Walk(root, n)) <==> n < |Recs(root)|
  {
    WalkRank(root, h, n);
    ValidIsRank(root, h, Walk(root, n));
  }

  /** The two moves undo each other, except at the ends. */
  lemma MovesUndo(root: Node, h: nat, path: seq<nat>)
    requires Tree(root, h) && IsPath(root, path)
    ensures var p, q := RLNext(root, path), RLPrev(root, path);
      && p != [] && q != []
      && (Rank(root, path) < |Recs(root)| ==> Rank(root, RLPrev(root, p)) == Rank(root, path))
      && (Rank(root, path) > 0 ==> Rank(root, RLNext(root, q)) == Rank(root, path))
  {
    RankBound(root, h, Open, Open, true, path);
    MovesByOne(root, h, path);
    MovesByOne(root, h, RLNext(root, path));
    MovesByOne(root, h, RLPrev(root, path));
  }

  // ---- the search for a key, by rank ----

  /** The number of records with smaller keys. */
  function Pos(rs: seq<Rec>, key: Key): (r: nat)
    ensures r <= |rs|
    ensures forall i :: 0 <= i < r ==> rs[i].0 < key
    ensures r < |rs| ==> key <= rs[r].0
  {
    if rs == [] || key <= rs[0].0 then 0 else 1 + Pos(rs[1..], key)
  }

  lemma PosIs(rs: seq<Rec>, key: Key, r: nat)
    requires r <= |rs| && (forall i :: 0 <= i < r ==> rs[i].0 < key) && (r < |rs| ==> key <= rs[r].0)
    ensures Pos(rs, key) == r
  {
  }

  /** `moveToKey` stops before the first record whose key is not smaller. */
  lemma {:induction false} SearchRank(n: Node, h: nat, lo: End, hi: End, root: bool, key: Key)
    requires WF(n, h, lo, hi, root) && Above(lo, key) && Below(key, hi)
    ensures Rank(n, KeyPath(n, key)) == Pos(Recs(n), key)
    decreases h
  {
    if n.Leaf? {
      PosIs(Recs(n), key, RecIdx(n.keys, key));
    } else {
      var i := KidIdx(n.keys, key);
      var left, mid, right := RecsOf(n.kids[..i]), Recs(n.kids[i]), RecsOf(n.kids[i + 1..]);
      SearchRank(n.kids[i], h - 1, KidLo(n.keys, i, lo), KidHi(n.keys, i, hi), false, key);
      RecsSplit(n.kids, i);
      assert KeyPath(n, key)[1..] == KeyPath(n.kids[i], key);
      SidesOfKey(n, h, lo, hi, root, key);
      PosInMiddle(left, mid, right, key);
    }
  }

  /** The kids to the left of the search path hold smaller keys, those to the right
      larger ones. */
  lemma SidesOfKey(n: Node, h: nat, lo: End, hi: End, root: bool, key: Key)
    requires WF(n, h, lo, hi, root) && n.Inner? && Above(lo, key) && Below(key, hi)
    ensures Above(KidLo(n.keys, KidIdx(n.keys, key), lo), key)
    ensures Below(key, KidHi(n.keys, KidIdx(n.keys, key), hi))
    ensures AllBelow(RecsOf(n.kids[..KidIdx(n.keys, key)]), key)
    ensures AllAbove(RecsOf(n.kids[KidIdx(n.keys, key) + 1..]), key)
  {
    KeyInKid(n.keys, lo, hi, key);
    LeftOfKey(n, h, lo, hi, root, key);
    RightOfKey(n, h, lo, hi, root, key);
  }

  lemma KeyInKid(keys: seq<Key>, lo: End, hi: End, key: Key)
    requires Above(lo, key) && Below(key, hi)
    ensures var i := KidIdx(keys, key);
      Above(KidLo(keys, i, lo), key) && Below(key, KidHi(keys, i, hi))
  {
  }

  lemma LeftOfKey(n: Node, h: nat, lo: End, hi: End, root: bool, key: Key)
    requires WF(n, h, lo, hi, root) && n.Inner?
    ensures AllBelow(RecsOf(n.kids[..KidIdx(n.keys, key)]), key)
  {
    var i := KidIdx(n.keys, key);
    if i > 0 {
      KidsOrdered(n, h, lo, hi, root, i);
      InBelow(RecsOf(n.kids[..i]), lo, n.keys[i - 1], key);
    }
  }

  lemma RightOfKey(n: Node, h: nat, lo: End, hi: End, root: bool, key: Key)
    requires WF(n, h, lo, hi, root) && n.Inner?
    ensures AllAbove(RecsOf(n.kids[KidIdx(n.keys, key) + 1..]), key)
  {
    var i := KidIdx(n.keys, key);
    if i + 1 < |n.kids| {
      KidsAfter(n, h, lo, hi, root, i + 1);
      InAbove(RecsOf(n.kids[i + 1..]), n.keys[i], hi, key);
    }
  }

  ghost predicate AllBelow(rs: seq<Rec>, key: Key) {
    forall j :: 0 <= j < |rs| ==> rs[j].0 < key
  }

  ghost predicate AllAbove(rs: seq<Rec>, key: Key) {
    forall j :: 0 <= j < |rs| ==> key < rs[j].0
  }

  lemma InBelow(rs: seq<Rec>, lo: End, k: Key, key: Key)
    requires k <= key
    ensures rs == [] || RecsIn(rs, lo, End.Key(k)) ==> AllBelow(rs, key)
  {
  }

  lemma InAbove(rs: seq<Rec>, k: Key, hi: End, key: Key)
    requires key < k
    ensures rs == [] || RecsIn(rs, End.Key(k), hi) ==> AllAbove(rs, key)
  {
  }

  lemma PosInMiddle(left: seq<Rec>, mid: seq<Rec>, right: seq<Rec>, key: Key)
    requires AllBelow(left, key) && AllAbove(right, key)
    ensures Pos(left + mid + right, key) == |left| + Pos(mid, key)
  {
    var all := left + mid + right;
    var r := |left| + Pos(mid, key);
    forall j | 0 <= j < r ensures all[j].0 < key {
      if j >= |left| { assert all[j] == mid[j - |left|]; }
    }
    assert r < |all| ==> key <= all[r].0;
    PosIs(all, key, r);
  }

  /** `RL_MoveToKey`: after the search the cursor is valid and shows the key exactly when
      the key is stored. */
  lemma FoundIffStored(root: Node, h: nat, key: Key)
    requires Tree(root, h)
    ensures IsPath(root, KeyPath(root, key))
    ensures var path, rs := KeyPath(root, key), Recs(root);
      && Rank(root, path) == Pos(rs, key)
      && (Valid(root, path) ==> Rank(root, path) < |rs|)
      && ((Valid(root, path) && rs[Rank(root, path)].0 == key) <==> exists i :: 0 <= i < |rs| && rs[i].0 == key)
  {
    KeyPathIsPath(root, h, Open, Open, true, key);
    SearchRank(root, h, Open, Open, true, key);
    ValidIsRank(root, h, KeyPath(root, key));
    RecsOrdered(root, h, Open, Open, true);
    if i :| 0 <= i < |Recs(root)| && Recs(root)[i].0 == key {
      assert Pos(Recs(root), key) <= i;
    }
  }
}
