/** Indices over schemas: a hash table for integers, a list for strings, and for a pair
    an index of indices. */
module NestedIndex {

  /** A field of a tuple; a tuple key is a pair of keys. */
  datatype Field = Num(n: nat) | Text(s: string)
  datatype Key = Single(f: Field) | Pair(a: Key, b: Key)

  datatype Schema = Int | Str | Tuple(a: Schema, b: Schema)

  type ListPtr = nat

  /** What an index maps a key to: the address of a list, or in an index over a pair, for
      the first component, an index of its own. */
  datatype Item = List(ptr: ListPtr) | Sub(index: Index)
  datatype Cell = Cell(key: Key, value: Item)
  datatype Index = Hash(buckets: seq<seq<Cell>>) | Chain(cells: seq<Cell>)

  datatype Option<T> = None | Some(value: T)

  /** The number of buckets. */
  const N: nat := 10

  predicate Fits(sch: Schema, k: Key) {
    match sch
    case Int => k.Single? && k.f.Num?
    case Str => k.Single? && k.f.Text?
    case Tuple(a, b) => k.Pair? && Fits(a, k.a) && Fits(b, k.b)
  }

  // ---- one list of cells ----

  function FindCell(cells: seq<Cell>, k: Key): Option<Item> {
    if cells == [] then None
    else if cells[0].key == k then Some(cells[0].value)
    else FindCell(cells[1..], k)
  }

  /** The first cell with the key gets the value; if there is none, a new last cell. */
  function PutCell(cells: seq<Cell>, k: Key, v: Item): seq<Cell> {
    if cells == [] then [Cell(k, v)]
    else if cells[0].key == k then [cells[0].(value := v)] + cells[1..]
    else [cells[0]] + PutCell(cells[1..], k, v)
  }

  lemma {:induction false} FindPut(cells: seq<Cell>, k: Key, v: Item, k': Key)
    ensures FindCell(PutCell(cells, k, v), k') == if k' == k then Some(v) else FindCell(cells, k')
  {
    if cells != [] && cells[0].key != k {
      FindPut(cells[1..], k, v, k');
      assert PutCell(cells, k, v)[1..] == PutCell(cells[1..], k, v);
    }
  }

  predicate HasCell(cells: seq<Cell>, k: Key) {
    exists i :: 0 <= i < |cells| && cells[i].key == k
  }

  /** A key that is there keeps its cell, a new one gets the last, and no other cell changes. */
  lemma {:induction false} PutCellOrder(cells: seq<Cell>, k: Key, v: Item)
    ensures !HasCell(cells, k) ==> PutCell(cells, k, v) == cells + [Cell(k, v)]
    ensures HasCell(cells, k) ==> |PutCell(cells, k, v)| == |cells|
    ensures HasCell(cells, k) ==> forall i :: 0 <= i < |cells| ==>
      PutCell(cells, k, v)[i].key == cells[i].key && (cells[i].key != k ==> PutCell(cells, k, v)[i] == cells[i])
  {
    if cells != [] && cells[0].key != k {
      PutCellOrder(cells[1..], k, v);
      assert forall i :: 1 <= i < |cells| ==> cells[i] == cells[1..][i - 1];
      if HasCell(cells, k) {
        var i :| 0 <= i < |cells| && cells[i].key == k;
        assert cells[1..][i - 1].key == k;
      }
      if HasCell(cells[1..], k) {
        var i :| 0 <= i < |cells[1..]| && cells[1..][i].key == k;
        assert cells[i + 1].key == k;
      }
    }
  }

  /** `stringlist_lookup`, and the walk of `inthash_lookup` along a bucket. */
  method LookupList(cells: seq<Cell>, k: Key) returns (r: Option<Item>)
    ensures r == FindCell(cells, k)
  {
    var i := 0;
    while i < |cells|
      invariant i <= |cells| && FindCell(cells, k) == FindCell(cells[i..], k)
    {
      At(cells, i);
      if cells[i].key == k { return Some(cells[i].value); }
      i := i + 1;
    }
    return None;
  }

  /** `stringlist_insert`, and `inthash_insert_list` with the store that follows it. */
  method InsertList(cells: seq<Cell>, k: Key, v: Item) returns (r: seq<Cell>)
    ensures r == PutCell(cells, k, v)
  {
    var i := 0;
    while i < |cells|
      invariant i <= |cells| && PutCell(cells, k, v) == cells[..i] + PutCell(cells[i..], k, v)
    {
      At(cells, i);
      if cells[i].key == k {
        var c := cells[i].(value := v);
        UpdateIs(cells, i, c);
        return cells[i := c];
      }
      Shift(cells[..i], cells[i], PutCell(cells[i + 1..], k, v));
      i := i + 1;
    }
    return cells + [Cell(k, v)];
  }

  lemma At<T>(s: seq<T>, i: nat)
    requires i < |s|
    ensures s[i..][0] == s[i] && s[i..][1..] == s[i + 1..] && s[..i] + [s[i]] == s[..i + 1]
  {
  }

  lemma UpdateIs<T>(s: seq<T>, i: nat, x: T)
    requires i < |s|
    ensures s[i := x] == s[..i] + ([x] + s[i + 1..])
  {
  }

  lemma Shift<T>(a: seq<T>, x: T, b: seq<T>)
    ensures a + ([x] + b) == (a + [x]) + b
  {
  }

  // ---- indices of any schema ----

  function IndexNew(sch: Schema): Index {
    match sch
    case Int => Hash(seq(N, _ => []))
    case Str => Chain([])
    case Tuple(a, _) => IndexNew(a)
  }

  function Bucket(k: Key): nat
    requires Fits(Int, k)
  {
    k.f.n % N
  }

  /** An index made for a schema. */
  ghost predicate IndexOk(sch: Schema, ind: Index) {
    match sch
    case Int => ind.Hash? && |ind.buckets| == N
    case Str => ind.Chain?
    case Tuple(a, b) =>
      && IndexOk(a, ind)
      && forall k | Fits(a, k) :: ItemOk(b, Lookup(a, ind, k))
  }

  ghost predicate ItemOk(sch: Schema, r: Option<Item>) {
    r.Some? ==> r.value.Sub? && IndexOk(sch, r.value.index)
  }

  function Lookup(sch: Schema, ind: Index, k: Key): Option<Item>
    requires Fits(sch, k)
  {
    match sch
    case Int => if ind.Hash? && |ind.buckets| == N then FindCell(ind.buckets[Bucket(k)], k) else None
    case Str => if ind.Chain? then FindCell(ind.cells, k) else None
    case Tuple(a, b) =>
      match Lookup(a, ind, k.a)
      case Some(Sub(i)) => Lookup(b, i, k.b)
      case _ => None
  }

  /** The index that a pair index has for a first component: a new one if there is none. */
  function SubIndex(a: Schema, b: Schema, ind: Index, ka: Key): (i: Index)
    requires Fits(a, ka) && IndexOk(Tuple(a, b), ind)
    ensures IndexOk(b, i)
    ensures forall kb | Fits(b, kb) :: Lookup(b, i, kb) == Lookup(Tuple(a, b), ind, Pair(ka, kb))
  {
    NewOk(b);
    assert ItemOk(b, Lookup(a, ind, ka));
    match Lookup(a, ind, ka)
    case Some(s) => s.index
    case None => IndexNew(b)
  }

  function Insert(sch: Schema, ind: Index, k: Key, v: Item): Index
    requires Fits(sch, k) && IndexOk(sch, ind)
  {
    match sch
    case Int => ind.(buckets := ind.buckets[Bucket(k) := PutCell(ind.buckets[Bucket(k)], k, v)])
    case Str => ind.(cells := PutCell(ind.cells, k, v))
    case Tuple(a, b) =>
      var bindex := SubIndex(a, b, ind, k.a);
      Insert(a, ind, k.a, Sub(Insert(b, bindex, k.b, v)))
  }

  /** A new index is empty. */
  lemma {:induction false} NewOk(sch: Schema)
    ensures IndexOk(sch, IndexNew(sch))
    ensures forall k | Fits(sch, k) :: Lookup(sch, IndexNew(sch), k) == None
  {
    match sch
    case Tuple(a, _) => NewOk(a);
    case _ =>
  }

  /** An index over any nested schema is a map: after an insert the key has the new value
      and every other key the old one. */
  lemma {:induction false} InsertLookup(sch: Schema, ind: Index, k: Key, v: Item, k': Key)
    requires Fits(sch, k) && Fits(sch, k') && IndexOk(sch, ind)
    ensures Lookup(sch, Insert(sch, ind, k, v), k') == if k' == k then Some(v) else Lookup(sch, ind, k')
  {
    match sch
    case Int => FindPut(ind.buckets[Bucket(k)], k, v, k');
    case Str => FindPut(ind.cells, k, v, k');
    case Tuple(a, b) =>
      var bindex := SubIndex(a, b, ind, k.a);
      InsertLookup(a, ind, k.a, Sub(Insert(b, bindex, k.b, v)), k'.a);
      if k'.a == k.a { InsertLookup(b, bindex, k.b, v, k'.b); }
  }

  lemma {:induction false} InsertOk(sch: Schema, ind: Index, k: Key, v: Item)
    requires Fits(sch, k) && IndexOk(sch, ind)
    ensures IndexOk(sch, Insert(sch, ind, k, v))
  {
    match sch
    case Int =>
    case Str =>
    case Tuple(a, b) =>
      var bindex := SubIndex(a, b, ind, k.a);
      var item := Sub(Insert(b, bindex, k.b, v));
      InsertOk(b, bindex, k.b, v);
      InsertOk(a, ind, k.a, item);
      forall x | Fits(a, x) ensures ItemOk(b, Lookup(a, Insert(a, ind, k.a, item), x)) {
        InsertLookup(a, ind, k.a, item, x);
      }
  }

  /** `index_lookup` through the method tables of the schema. */
  method IndexLookup(sch: Schema, ind: Index, k: Key) returns (r: Option<Item>)
    requires Fits(sch, k) && IndexOk(sch, ind)
    ensures r == Lookup(sch, ind, k)
    decreases sch
  {
    match sch
    case Int => r := LookupList(ind.buckets[Bucket(k)], k);
    case Str => r := LookupList(ind.cells, k);
    case Tuple(a, b) =>
      var sub := IndexLookup(a, ind, k.a);
      if sub.None? { return None; }
      assert ItemOk(b, Lookup(a, ind, k.a));
      r := IndexLookup(b, sub.value.index, k.b);
  }

  /** `index_insert` */
  method IndexInsert(sch: Schema, ind: Index, k: Key, v: Item) returns (r: Index)
    requires Fits(sch, k) && IndexOk(sch, ind)
    ensures r == Insert(sch, ind, k, v) && IndexOk(sch, r)
    decreases sch
  {
    InsertOk(sch, ind, k, v);
    match sch
    case Int =>
      var cells := InsertList(ind.buckets[Bucket(k)], k, v);
      r := ind.(buckets := ind.buckets[Bucket(k) := cells]);
    case Str =>
      var cells := InsertList(ind.cells, k, v);
      r := ind.(cells := cells);
    case Tuple(a, b) =>
      var sub := IndexLookup(a, ind, k.a);
      assert ItemOk(b, Lookup(a, ind, k.a));
      NewOk(b);
      var bindex := if sub.Some? then sub.value.index else IndexNew(b);
      bindex := IndexInsert(b, bindex, k.b, v);
      r := IndexInsert(a, ind, k.a, Sub(bindex));
  }
}
