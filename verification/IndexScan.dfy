/** The sequential scan through a B+-tree cursor, and the index built from it. */
module IndexScan {
  import opened NestedIndex
  import opened Projection
  import BTree
  import BTreeMoves
  import BTreeInsert
  import BTreeCursor

  /** The address of a tuple; 0 is NULL, with which a scan ends. */
  type Addr = nat

  /** A relation: its attributes, those it is joined on, and the tuples in memory. */
  datatype Relation = Relation(attrs: seq<Attr>, join: seq<Attr>, rows: map<Addr, Row>)

  ghost predicate Good(rel: Relation) {
    && rel.join != [] && Within(rel.attrs, rel.join)
    && forall a <- rel.rows :: RowFits(rel.attrs, rel.rows[a])
  }

  function KeyFor(rel: Relation, a: Addr): (k: Key)
    requires Good(rel) && a in rel.rows
    ensures Fits(SchemaOf(rel.join), k)
  {
    KeyOf(rel.attrs, rel.rows[a], rel.join)
  }

  /** Two tuples have the same values in the join attributes of their relations. */
  ghost predicate Agree(o: Relation, a: Addr, i: Relation, b: Addr)
    requires Good(o) && a in o.rows && Good(i) && b in i.rows && |o.join| == |i.join|
  {
    forall j :: 0 <= j < |o.join| ==>
      ValueOf(o.attrs, o.rows[a], o.join[j]) == ValueOf(i.attrs, i.rows[b], i.join[j])
  }

  /** The keys that the index is built and probed with tell tuples apart by exactly the
      join attributes. */
  lemma KeysAgree(o: Relation, a: Addr, i: Relation, b: Addr)
    requires Good(o) && a in o.rows && Good(i) && b in i.rows && |o.join| == |i.join|
    ensures KeyFor(o, a) == KeyFor(i, b) <==> Agree(o, a, i, b)
  {
    SameKey(o.attrs, o.rows[a], o.join, i.attrs, i.rows[b], i.join);
  }

  ghost predicate Stored(rel: Relation, addrs: seq<Addr>) {
    forall i :: 0 <= i < |addrs| ==> addrs[i] in rel.rows && addrs[i] != 0
  }

  /** The tuples with key `k`, in their order. */
  function Matches(rel: Relation, addrs: seq<Addr>, k: Key): seq<Addr>
    requires Good(rel) && Stored(rel, addrs)
  {
    if addrs == [] then []
    else
      var n := |addrs| - 1;
      Matches(rel, addrs[..n], k) + (if KeyFor(rel, addrs[n]) == k then [addrs[n]] else [])
  }

  /** Each address in `Matches` is of the relation and has the key; every such address is
      there. */
  lemma {:induction false} MatchesAre(rel: Relation, addrs: seq<Addr>, k: Key, a: Addr)
    requires Good(rel) && Stored(rel, addrs)
    ensures a in Matches(rel, addrs, k) <==> a in addrs && KeyFor(rel, a) == k
  {
    if addrs != [] {
      var n := |addrs| - 1;
      MatchesAre(rel, addrs[..n], k, a);
      assert addrs == addrs[..n] + [addrs[n]];
    }
  }

  ghost predicate Ascending(at: seq<nat>) {
    forall j, k :: 0 <= j < k < |at| ==> at[j] < at[k]
  }

  /** `r` is what `s` has at the places `at`, in order. */
  ghost predicate Picks(s: seq<Addr>, at: seq<nat>, r: seq<Addr>) {
    && Ascending(at) && |at| == |r|
    && forall j :: 0 <= j < |at| ==> at[j] < |s| && r[j] == s[at[j]]
  }

  /** The places that are picked are those of the tuples that agree with `a`. */
  ghost predicate PicksAgreeing(o: Relation, a: Addr, i: Relation, inner: seq<Addr>, at: seq<nat>, r: seq<Addr>)
    requires Good(o) && a in o.rows && Good(i) && Stored(i, inner) && |o.join| == |i.join|
  {
    && Picks(inner, at, r)
    && forall n :: 0 <= n < |inner| ==> (n in at <==> Agree(o, a, i, inner[n]))
  }

  /** The tuples with the key of `a` are those that agree with it, in scan order. */
  lemma {:induction false} MatchesAgree(o: Relation, a: Addr, i: Relation, inner: seq<Addr>) returns (at: seq<nat>)
    requires Good(o) && a in o.rows && Good(i) && Stored(i, inner) && |o.join| == |i.join|
    requires Fits(SchemaOf(i.join), KeyFor(o, a))
    ensures PicksAgreeing(o, a, i, inner, at, Matches(i, inner, KeyFor(o, a)))
    decreases |inner|
  {
    if inner == [] {
      at := [];
    } else {
      var n := |inner| - 1;
      at := MatchesAgree(o, a, i, inner[..n]);
      KeysAgree(o, a, i, inner[n]);
      PickLast(o, a, i, inner, at, Matches(i, inner[..n], KeyFor(o, a)));
      if Agree(o, a, i, inner[n]) { at := at + [n]; }
    }
  }

  lemma PickLast(o: Relation, a: Addr, i: Relation, inner: seq<Addr>, at: seq<nat>, r: seq<Addr>)
    requires Good(o) && a in o.rows && Good(i) && Stored(i, inner) && |o.join| == |i.join| && inner != []
    requires PicksAgreeing(o, a, i, inner[..|inner| - 1], at, r)
    ensures
      var n := |inner| - 1;
      if Agree(o, a, i, inner[n]) then PicksAgreeing(o, a, i, inner, at + [n], r + [inner[n]])
      else PicksAgreeing(o, a, i, inner, at, r)
  {
    var n := |inner| - 1;
    assert forall m :: 0 <= m < n ==> inner[..n][m] == inner[m];
    assert n !in at;
  }

  function Addrs(rs: seq<BTree.Rec>): (s: seq<Addr>) {
    seq(|rs|, i requires 0 <= i < |rs| => rs[i].1)
  }

  /** The values of a map in increasing order of their keys, each once. */
  ghost predicate InKeyOrder(out: seq<Addr>, m: map<BTree.Key, BTree.Value>, keys: seq<BTree.Key>) {
    && |keys| == |out| == |m|
    && (forall j, k :: 0 <= j < k < |keys| ==> keys[j] < keys[k])
    && forall n :: 0 <= n < |out| ==> keys[n] in m && m[keys[n]] == out[n]
  }

  lemma AddrsInKeyOrder(root: BTree.Node, h: nat) returns (keys: seq<BTree.Key>)
    requires BTreeMoves.Tree(root, h)
    ensures InKeyOrder(Addrs(BTree.Recs(root)), BTreeInsert.ToMap(BTree.Recs(root)), keys)
  {
    var rs := BTree.Recs(root);
    BTree.RecsOrdered(root, h, BTree.Open, BTree.Open, true);
    BTreeInsert.CountIsKeys(rs);
    keys := seq(|rs|, n requires 0 <= n < |rs| => rs[n].0);
    forall n | 0 <= n < |rs| ensures keys[n] in BTreeInsert.ToMap(rs) && BTreeInsert.ToMap(rs)[keys[n]] == rs[n].1 {
      BTreeInsert.ToMapHas(rs, rs[n].0);
    }
  }

  /** The `n`-th address, NULL behind the last. */
  function AddrAt(s: seq<Addr>, n: nat): Addr {
    if n < |s| then s[n] else 0
  }

  /** The position after that, or the end. */
  function Onward(count: nat, n: nat): nat {
    if n < count then n + 1 else n
  }

  /** `seq_scan_next` */
  method SeqScanNext(c: BTreeCursor.Cursor) returns (r: Addr)
    requires c.Consistent()
    modifies c`level, c.ancestorsIdx
    ensures c.Consistent()
    ensures BTreeMoves.Rank(c.relation.root, c.Path()) ==
      Onward(|BTree.Recs(c.relation.root)|, old(BTreeMoves.Rank(c.relation.root, c.Path())))
    ensures r == AddrAt(Addrs(BTree.Recs(c.relation.root)), old(BTreeMoves.Rank(c.relation.root, c.Path())))
  {
    var empty := c.RLIsEmpty();
    if empty { return 0; }
    var valid := c.IsValid();
    if !valid { return 0; }
    r := c.RLGetRecord();
    c.RLMoveToNext();
  }

  lemma TakeMore<T>(s: seq<T>, n: nat)
    requires n < |s|
    ensures s[..n] + [s[n]] == s[..n + 1]
  {
  }

  /** `materialize` of a sequential scan: every record once, in key order. */
  method Materialize(c: BTreeCursor.Cursor) returns (out: seq<Addr>)
    requires c.Consistent() && 0 !in Addrs(BTree.Recs(c.relation.root))
    modifies c`level, c.ancestorsIdx
    ensures out == Addrs(BTree.Recs(c.relation.root))
    ensures exists keys :: InKeyOrder(out, BTreeInsert.ToMap(BTree.Recs(c.relation.root)), keys)
  {
    ghost var root := c.relation.root;
    ghost var keys := AddrsInKeyOrder(root, c.relation.depth);
    ghost var all := Addrs(BTree.Recs(root));
    assert forall i :: 0 <= i < |all| ==> all[i] in all;
    var _ := c.RLMoveToFirst();
    out := [];
    var a := SeqScanNext(c);
    while a != 0
      invariant c.Consistent() && |out| <= |all| && out == all[..|out|]
      invariant a == AddrAt(all, |out|) && BTreeMoves.Rank(root, c.Path()) == Onward(|all|, |out|)
      decreases |all| - |out|
    {
      TakeMore(all, |out|);
      out := out + [a];
      a := SeqScanNext(c);
    }
  }

  // ---- the index over a scan ----

  type Lists = map<ListPtr, seq<Addr>>

  ghost predicate EntryOk(rel: Relation, ind: Index, lists: Lists, addrs: seq<Addr>, k: Key)
    requires Good(rel) && Stored(rel, addrs) && Fits(SchemaOf(rel.join), k)
  {
    match Lookup(SchemaOf(rel.join), ind, k)
    case None => Matches(rel, addrs, k) == []
    case Some(Sub(_)) => false
    case Some(List(l)) => l in lists && lists[l] == Matches(rel, addrs, k) != []
  }

  ghost predicate Apart(sch: Schema, ind: Index, k: Key, k': Key)
    requires Fits(sch, k) && Fits(sch, k')
  {
    k != k' && Lookup(sch, ind, k).Some? ==> Lookup(sch, ind, k) != Lookup(sch, ind, k')
  }

  /** The index maps each key to exactly the tuples that have it, in scan order, and
      different keys to different lists. */
  ghost predicate Indexed(rel: Relation, ind: Index, lists: Lists, addrs: seq<Addr>)
    requires Good(rel) && Stored(rel, addrs)
  {
    var sch := SchemaOf(rel.join);
    && IndexOk(sch, ind)
    && (forall k {:trigger EntryOk(rel, ind, lists, addrs, k)} | Fits(sch, k) :: EntryOk(rel, ind, lists, addrs, k))
    && forall k, k' {:trigger Apart(sch, ind, k, k')} | Fits(sch, k) && Fits(sch, k') :: Apart(sch, ind, k, k')
  }

  /** The list at `l`, new if there is none there, with `a` at its end. */
  function Appended(lists: Lists, l: ListPtr, a: Addr): Lists {
    lists[l := (if l in lists then lists[l] else []) + [a]]
  }

  /** The list at `l` is that of the key `k`, or nobody's. */
  ghost predicate OwnList(rel: Relation, ind: Index, lists: Lists, k: Key, l: ListPtr)
    requires Good(rel) && Fits(SchemaOf(rel.join), k)
  {
    match Lookup(SchemaOf(rel.join), ind, k)
    case Some(List(l')) => l' == l
    case _ => l !in lists
  }

  lemma AddedEntry(rel: Relation, ind: Index, lists: Lists, addrs: seq<Addr>, a: Addr, l: ListPtr, x: Key)
    requires Good(rel) && Stored(rel, addrs) && a in rel.rows && a != 0 && IndexOk(SchemaOf(rel.join), ind)
    requires OwnList(rel, ind, lists, KeyFor(rel, a), l) && EntryOk(rel, ind, lists, addrs, KeyFor(rel, a))
    requires Fits(SchemaOf(rel.join), x) && EntryOk(rel, ind, lists, addrs, x)
    requires Apart(SchemaOf(rel.join), ind, x, KeyFor(rel, a))
    ensures Stored(rel, addrs + [a])
    ensures EntryOk(rel, Insert(SchemaOf(rel.join), ind, KeyFor(rel, a), List(l)), Appended(lists, l, a), addrs + [a], x)
  {
    assert (addrs + [a])[..|addrs|] == addrs;
    InsertLookup(SchemaOf(rel.join), ind, KeyFor(rel, a), List(l), x);
  }

  lemma AddedApart(rel: Relation, ind: Index, lists: Lists, addrs: seq<Addr>, k: Key, l: ListPtr, x: Key, y: Key)
    requires Good(rel) && Stored(rel, addrs) && IndexOk(SchemaOf(rel.join), ind)
    requires Fits(SchemaOf(rel.join), k) && Fits(SchemaOf(rel.join), x) && Fits(SchemaOf(rel.join), y)
    requires OwnList(rel, ind, lists, k, l)
    requires EntryOk(rel, ind, lists, addrs, x) && EntryOk(rel, ind, lists, addrs, y)
    requires Apart(SchemaOf(rel.join), ind, x, y)
    requires Apart(SchemaOf(rel.join), ind, x, k) && Apart(SchemaOf(rel.join), ind, y, k)
    ensures Apart(SchemaOf(rel.join), Insert(SchemaOf(rel.join), ind, k, List(l)), x, y)
  {
    InsertLookup(SchemaOf(rel.join), ind, k, List(l), x);
    InsertLookup(SchemaOf(rel.join), ind, k, List(l), y);
  }

  /** The index has, under the key of tuple `a`, a list of exactly the tuples that agree
      with `a`, in scan order, and nothing if there are none. */
  ghost predicate Finds(o: Relation, a: Addr, i: Relation, ind: Index, lists: Lists, inner: seq<Addr>)
    requires Good(o) && a in o.rows && Good(i) && Stored(i, inner)
    requires |o.join| == |i.join| && SchemaOf(o.join) == SchemaOf(i.join)
  {
    match Lookup(SchemaOf(i.join), ind, KeyFor(o, a))
    case None => forall b <- inner :: !Agree(o, a, i, b)
    case Some(Sub(_)) => false
    case Some(List(l)) => l in lists && lists[l] != [] && exists at :: PicksAgreeing(o, a, i, inner, at, lists[l])
  }

  lemma IndexFinds(o: Relation, a: Addr, i: Relation, ind: Index, lists: Lists, inner: seq<Addr>)
    requires Good(o) && a in o.rows && Good(i) && Stored(i, inner) && Indexed(i, ind, lists, inner)
    requires |o.join| == |i.join| && SchemaOf(o.join) == SchemaOf(i.join)
    ensures Finds(o, a, i, ind, lists, inner)
  {
    assert EntryOk(i, ind, lists, inner, KeyFor(o, a));
    var at := MatchesAgree(o, a, i, inner);
    forall b | b in inner && Matches(i, inner, KeyFor(o, a)) == [] ensures !Agree(o, a, i, b) {
      KeysAgree(o, a, i, b);
      MatchesAre(i, inner, KeyFor(o, a), b);
    }
  }

  /** One round of the scan. */
  lemma AddTuple(rel: Relation, ind: Index, lists: Lists, addrs: seq<Addr>, a: Addr, l: ListPtr)
    requires Good(rel) && Stored(rel, addrs) && a in rel.rows && a != 0 && Indexed(rel, ind, lists, addrs)
    requires OwnList(rel, ind, lists, KeyFor(rel, a), l)
    ensures Stored(rel, addrs + [a])
    ensures Indexed(rel, Insert(SchemaOf(rel.join), ind, KeyFor(rel, a), List(l)), Appended(lists, l, a), addrs + [a])
  {
    var sch, k, addrs' := SchemaOf(rel.join), KeyFor(rel, a), addrs + [a];
    var ind', lists' := Insert(sch, ind, k, List(l)), Appended(lists, l, a);
    InsertOk(sch, ind, k, List(l));
    assert EntryOk(rel, ind, lists, addrs, k);
    forall x | Fits(sch, x) ensures EntryOk(rel, ind', lists', addrs', x) {
      assert EntryOk(rel, ind, lists, addrs, x) && Apart(sch, ind, x, k);
      AddedEntry(rel, ind, lists, addrs, a, l, x);
    }
    forall x, y | Fits(sch, x) && Fits(sch, y) ensures Apart(sch, ind', x, y) {
      assert EntryOk(rel, ind, lists, addrs, x) && EntryOk(rel, ind, lists, addrs, y);
      assert Apart(sch, ind, x, y) && Apart(sch, ind, x, k) && Apart(sch, ind, y, k);
      AddedApart(rel, ind, lists, addrs, k, l, x, y);
    }
  }

  lemma NothingIndexed(rel: Relation)
    requires Good(rel)
    ensures Indexed(rel, IndexNew(SchemaOf(rel.join)), map[], [])
  {
    NewOk(SchemaOf(rel.join));
  }

  /** The lists hold tuples of the relation, at addresses handed out so far. */
  ghost predicate ListsOk(rel: Relation, lists: Lists, unused: nat) {
    forall l <- lists :: l < unused && Stored(rel, lists[l])
  }

  lemma AppendedLists(rel: Relation, lists: Lists, unused: nat, unused': nat, l: ListPtr, a: Addr)
    requires ListsOk(rel, lists, unused) && unused <= unused' && l < unused' && a in rel.rows && a != 0
    ensures ListsOk(rel, Appended(lists, l, a), unused')
    ensures l !in lists ==> lists[l := []][l := [] + [a]] == Appended(lists, l, a)
  {
  }

  /** The first `n` tuples of a scan are indexed. */
  ghost predicate Scanned(rel: Relation, ind: Index, lists: Lists, unused: nat, all: seq<Addr>, n: nat)
    requires Good(rel) && Stored(rel, all)
  {
    n <= |all| && Indexed(rel, ind, lists, all[..n]) && ListsOk(rel, lists, unused)
  }

  /** The list of the tuple's key is looked up, or a new one made, gets the tuple, and is
      put back into the index. */
  method IndexTuple(rel: Relation, ind: Index, lists: Lists, unused: nat, a: Addr, ghost all: seq<Addr>, ghost n: nat)
    returns (ind': Index, lists': Lists, unused': nat)
    requires Good(rel) && Stored(rel, all) && Scanned(rel, ind, lists, unused, all, n) && n < |all| && a == all[n]
    ensures Scanned(rel, ind', lists', unused', all, n + 1)
  {
    ghost var addrs := all[..n];
    TakeMore(all, n);
    var sch, proj := SchemaOf(rel.join), KeyFor(rel, a);
    assert EntryOk(rel, ind, lists, addrs, proj);
    var found := IndexLookup(sch, ind, proj);
    var l: nat;
    if found.Some? {
      l, lists', unused' := found.value.ptr, lists, unused;
    } else {
      l, lists', unused' := unused, lists[unused := []], unused + 1;
    }
    AddTuple(rel, ind, lists, addrs, a, l);
    AppendedLists(rel, lists, unused, unused', l, a);
    lists' := lists'[l := lists'[l] + [a]];
    ind' := IndexInsert(sch, ind, proj, List(l));
  }

  lemma AllScanned(rel: Relation, ind: Index, lists: Lists, unused: nat, all: seq<Addr>)
    requires Good(rel) && Stored(rel, all) && Scanned(rel, ind, lists, unused, all, |all|)
    ensures Indexed(rel, ind, lists, all) && forall l <- lists :: Stored(rel, lists[l])
    ensures forall a <- rel.rows :: Finds(rel, a, rel, ind, lists, all)
  {
    assert all[..|all|] == all;
    forall a | a in rel.rows ensures Finds(rel, a, rel, ind, lists, all) { IndexFinds(rel, a, rel, ind, lists, all); }
  }

  /** `index_scan`; `fifo_new` hands out the list addresses 0, 1, 2 and so on. */
  method Scan(c: BTreeCursor.Cursor, rel: Relation) returns (ind: Index, lists: Lists)
    requires c.Consistent() && Good(rel) && Stored(rel, Addrs(BTree.Recs(c.relation.root)))
    modifies c`level, c.ancestorsIdx
    ensures Indexed(rel, ind, lists, Addrs(BTree.Recs(c.relation.root)))
    ensures forall l <- lists :: Stored(rel, lists[l])
    ensures forall a <- rel.rows :: Finds(rel, a, rel, ind, lists, Addrs(BTree.Recs(c.relation.root)))
  {
    ghost var root := c.relation.root;
    ghost var all, n := Addrs(BTree.Recs(root)), 0;
    var unused: nat := 0;
    ind, lists := IndexNew(SchemaOf(rel.join)), map[];
    NothingIndexed(rel);
    assert Scanned(rel, ind, lists, unused, all, 0) by { assert all[..0] == []; }
    var _ := c.RLMoveToFirst();
    var a := SeqScanNext(c);
    while a != 0
      invariant c.Consistent() && Scanned(rel, ind, lists, unused, all, n)
      invariant a == AddrAt(all, n) && BTreeMoves.Rank(root, c.Path()) == Onward(|all|, n)
      decreases |all| - n
    {
      ind, lists, unused := IndexTuple(rel, ind, lists, unused, a, all, n);
      n := n + 1;
      a := SeqScanNext(c);
    }
    AllScanned(rel, ind, lists, unused, all);
  }
}
