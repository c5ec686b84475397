/** The loops over the entries of one node. */
module BTreeNodes {
  import opened BTree
  import opened BTreeInsert

  /** An entry: a key with its record or child. */
  datatype Entry<T> = Entry(key: Key, ptr: T)

  function KeysIn<T>(es: seq<Entry<T>>): (ks: seq<Key>) {
    seq(|es|, i requires 0 <= i < |es| => es[i].key)
  }

  function PtrsIn<T>(es: seq<Entry<T>>): (ps: seq<T>) {
    seq(|es|, i requires 0 <= i < |es| => es[i].ptr)
  }

  function Entries<T>(keys: seq<Key>, ptrs: seq<T>): (es: seq<Entry<T>>)
    requires |ptrs| == |keys|
    ensures KeysIn(es) == keys && PtrsIn(es) == ptrs
  {
    seq(|keys|, i requires 0 <= i < |keys| => Entry(keys[i], ptrs[i]))
  }

  method FindChildIndex(keys: seq<Key>, key: Key) returns (i: nat)
    ensures i == KidIdx(keys, key)
  {
    i := 0;
    while i < |keys|
      invariant i <= |keys|
      invariant forall j :: 0 <= j < i ==> keys[j] <= key
    {
      if key < keys[i] { return; }
      i := i + 1;
    }
  }

  method FindRecordIndex(keys: seq<Key>, key: Key) returns (i: nat)
    ensures i == RecIdx(keys, key)
  {
    if |keys| == 0 { return 0; }
    i := 0;
    while i <= |keys| - 1
      invariant i <= |keys|
      invariant forall j :: 0 <= j < i ==> keys[j] < key
    {
      if key <= keys[i] { return; }
      i := i + 1;
    }
  }

  method IsNodeParent(node: Node, key: Key) returns (b: bool)
    ensures b == NodeIsParent(node, key)
  {
    match node {
      case Leaf(first, last, keys, _) =>
        if |keys| == 0 { return true; }
        var lowest, highest := keys[0], keys[|keys| - 1];
        return (key >= lowest || first) && (key <= highest || last);
      case Inner(_, _, keys, _) =>
        var idx := FindChildIndex(keys, key);
        return !(idx == 0 || idx == |keys|);
    }
  }

  lemma InsertEntries<T>(es: seq<Entry<T>>, i: nat, e: Entry<T>)
    requires i <= |es|
    ensures KeysIn(InsertSeq(es, i, e)) == InsertSeq(KeysIn(es), i, e.key)
    ensures PtrsIn(InsertSeq(es, i, e)) == InsertSeq(PtrsIn(es), i, e.ptr)
  {
  }

  /** The entries from `tgt` on move one slot to the right, and `e` takes their place. */
  method ShiftIn<T>(entries: array<Entry<T>>, numKeys: nat, tgt: nat, e: Entry<T>)
    requires tgt <= numKeys < entries.Length
    modifies entries
    ensures entries[..numKeys + 1] == InsertSeq(old(entries[..numKeys]), tgt, e)
  {
    var i := numKeys;
    while i > tgt
      invariant tgt <= i <= numKeys
      invariant forall j :: 0 <= j < i ==> entries[j] == old(entries[j])
      invariant forall j :: i < j <= numKeys ==> entries[j] == old(entries[j - 1])
    {
      entries[i] := entries[i - 1];
      i := i - 1;
    }
    entries[tgt] := e;
  }

  /** All 16 entries of an overfull node: the 15 old ones with `e` among them. */
  method Gather<T>(entries: array<Entry<T>>, tgt: nat, e: Entry<T>) returns (all: array<Entry<T>>)
    requires entries.Length == FANOUT && tgt <= FANOUT
    ensures fresh(all) && all[..] == InsertSeq(entries[..], tgt, e)
  {
    all := new Entry<T>[FANOUT + 1](_ => e);
    var i := 0;
    while i < tgt
      invariant i <= tgt
      invariant forall j :: 0 <= j < i ==> all[j] == entries[j]
    {
      all[i] := entries[i];
      i := i + 1;
    }
    all[tgt] := e;
    i := tgt;
    while i < FANOUT
      invariant tgt <= i <= FANOUT
      invariant forall j :: 0 <= j < tgt ==> all[j] == entries[j]
      invariant all[tgt] == e
      invariant forall j :: tgt < j <= i ==> all[j] == entries[j - 1]
    {
      all[i + 1] := entries[i];
      i := i + 1;
    }
  }

  /** The first node keeps the lower half: only what the new entry displaced is written. */
  method KeepLower<T>(entries: array<Entry<T>>, all: array<Entry<T>>, tgt: nat)
    requires entries != all && entries.Length == FANOUT && all.Length == FANOUT + 1 && tgt <= FANOUT
    requires forall j :: 0 <= j < tgt ==> all[j] == entries[j]
    modifies entries
    ensures entries[..MIDDLE] == all[..MIDDLE]
  {
    if tgt < MIDDLE {
      var i := tgt;
      while i < MIDDLE
        invariant tgt <= i <= MIDDLE
        invariant forall j :: 0 <= j < i ==> entries[j] == all[j]
      {
        entries[i] := all[i];
        i := i + 1;
      }
    }
  }

  /** The new node gets the entries from `start` on. */
  method CopyUpper<T>(all: array<Entry<T>>, start: nat) returns (entries: array<Entry<T>>)
    requires all.Length == FANOUT + 1 && MIDDLE <= start <= FANOUT
    ensures fresh(entries) && entries.Length == FANOUT
    ensures entries[..FANOUT + 1 - start] == all[start..]
  {
    entries := new Entry<T>[FANOUT](_ requires all.Length > 0 reads all => all[0]);
    var i := start;
    while i < FANOUT + 1
      invariant start <= i <= FANOUT + 1
      invariant forall j :: start <= j < i ==> entries[j - start] == all[j]
    {
      entries[i - start] := all[i];
      i := i + 1;
    }
  }

  /** Both halves of the overfull entries, still in one sequence each. */
  method SplitEntries<T>(es: seq<Entry<T>>, tgt: nat, e: Entry<T>, start: nat)
    returns (lower: seq<Entry<T>>, middle: Entry<T>, upper: seq<Entry<T>>)
    requires |es| == FANOUT && tgt <= FANOUT && MIDDLE <= start <= FANOUT
    ensures var all := InsertSeq(es, tgt, e);
      lower == all[..MIDDLE] && middle == all[MIDDLE] && upper == all[start..]
  {
    var entries := new Entry<T>[FANOUT](i requires 0 <= i < |es| => es[i]);
    assert entries[..] == es;
    var all := Gather(entries, tgt, e);
    KeepLower(entries, all, tgt);
    var second := CopyUpper(all, start);
    lower, middle, upper := entries[..MIDDLE], all[MIDDLE], second[..FANOUT + 1 - start];
  }

  /** `splitnode` on a leaf: the first key of the second leaf is copied up. */
  method SplitLeaf(node: Node, e: Entry<Value>) returns (l: Node, s: Key, r: Node)
    requires node.Leaf? && |node.recs| == |node.keys| == FANOUT
    ensures Two(l, s, r) == AddRec(node, RecIdx(node.keys, e.key), e.key, e.ptr)
  {
    var tgt := FindRecordIndex(node.keys, e.key);
    var es := Entries(node.keys, node.recs);
    var lower, middle, upper := SplitEntries(es, tgt, e, MIDDLE);
    l := Leaf(node.first, false, KeysIn(lower), PtrsIn(lower));
    s := middle.key;
    r := Leaf(false, node.last, KeysIn(upper), PtrsIn(upper));
    InsertEntries(es, tgt, e);
    SlicesOfEntries(InsertSeq(es, tgt, e), MIDDLE);
  }

  lemma SlicesOfEntries<T>(es: seq<Entry<T>>, m: nat)
    requires m <= |es|
    ensures KeysIn(es[..m]) == KeysIn(es)[..m] && PtrsIn(es[..m]) == PtrsIn(es)[..m]
    ensures KeysIn(es[m..]) == KeysIn(es)[m..] && PtrsIn(es[m..]) == PtrsIn(es)[m..]
  {
  }

  /** `splitnode` on an interior node: the middle key is pushed up, and its child becomes
      `ptr0` of the second node. */
  method SplitInner(node: Node, e: Entry<Node>) returns (l: Node, s: Key, r: Node)
    requires node.Inner? && |node.keys| == FANOUT && |node.kids| == FANOUT + 1
    ensures Two(l, s, r) == AddKid(node, RecIdx(node.keys, e.key), e.key, e.ptr)
  {
    var tgt := FindRecordIndex(node.keys, e.key);
    var ptr0, es := node.kids[0], Entries(node.keys, node.kids[1..]);
    var lower, middle, upper := SplitEntries(es, tgt, e, MIDDLE + 1);
    l := Inner(node.first, false, KeysIn(lower), [ptr0] + PtrsIn(lower));
    s := middle.key;
    r := Inner(false, node.last, KeysIn(upper), [middle.ptr] + PtrsIn(upper));
    ghost var all := InsertSeq(es, tgt, e);
    InsertEntries(es, tgt, e);
    SlicesOfEntries(all, MIDDLE);
    SlicesOfEntries(all, MIDDLE + 1);
    KidsOfEntries(node.kids, tgt, e.ptr, PtrsIn(all));
  }

  /** The kids after an insertion are `ptr0` and the pointers of the entries. */
  lemma KidsOfEntries(kids: seq<Node>, tgt: nat, c: Node, ptrs: seq<Node>)
    requires |kids| == FANOUT + 1 && tgt <= FANOUT && ptrs == InsertSeq(kids[1..], tgt, c)
    ensures var kids' := InsertSeq(kids, tgt + 1, c);
      kids'[..MIDDLE + 1] == [kids[0]] + ptrs[..MIDDLE] && kids'[MIDDLE + 1..] == [ptrs[MIDDLE]] + ptrs[MIDDLE + 1..]
  {
    assert InsertSeq(kids, tgt + 1, c) == [kids[0]] + ptrs;
  }

  /** A slot array holding these entries. */
  method SlotsOf<T>(es: seq<Entry<T>>, e: Entry<T>) returns (entries: array<Entry<T>>)
    requires |es| <= FANOUT
    ensures fresh(entries) && entries.Length == FANOUT && entries[..|es|] == es
  {
    entries := new Entry<T>[FANOUT](i requires 0 <= i => if i < |es| then es[i] else e);
  }

  /** A leaf with room takes the record at `tgt`. */
  method AddToLeaf(node: Node, tgt: nat, e: Entry<Value>) returns (n: Node)
    requires node.Leaf? && |node.recs| == |node.keys| < FANOUT && tgt <= |node.keys|
    ensures One(n) == AddRec(node, tgt, e.key, e.ptr)
  {
    var es := Entries(node.keys, node.recs);
    var entries := SlotsOf(es, e);
    ShiftIn(entries, |node.keys|, tgt, e);
    var es' := entries[..|node.keys| + 1];
    InsertEntries(es, tgt, e);
    n := node.(keys := KeysIn(es'), recs := PtrsIn(es'));
  }

  /** An interior node with room takes the separator and child at `tgt`. */
  method AddToInner(node: Node, tgt: nat, e: Entry<Node>) returns (n: Node)
    requires node.Inner? && |node.kids| == |node.keys| + 1 && tgt <= |node.keys| < FANOUT
    ensures One(n) == AddKid(node, tgt, e.key, e.ptr)
  {
    var es := Entries(node.keys, node.kids[1..]);
    var entries := SlotsOf(es, e);
    ShiftIn(entries, |node.keys|, tgt, e);
    var es' := entries[..|node.keys| + 1];
    InsertEntries(es, tgt, e);
    n := node.(keys := KeysIn(es'), kids := [node.kids[0]] + PtrsIn(es'));
    assert InsertSeq(node.kids, tgt + 1, e.ptr) == [node.kids[0]] + InsertSeq(node.kids[1..], tgt, e.ptr);
  }
}
