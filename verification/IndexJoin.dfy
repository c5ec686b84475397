/** The index join: an outer scan probes the index over the inner relation, and takes the
    inner tuples out of the lists that it finds there. */
module IndexJoin {
  import opened NestedIndex
  import opened Projection
  import opened IndexScan
  import BTree
  import BTreeCursor

  type Match = (Addr, Addr)

  function PairsWith(o: Addr, inner: seq<Addr>): seq<Match> {
    seq(|inner|, i requires 0 <= i < |inner| => (o, inner[i]))
  }

  /** The relations can be joined: as many join attributes on both sides, of the same
      domains, and no name on which an offset search ends the program. */
  ghost predicate Joinable(o: Relation, i: Relation) {
    && Good(o) && Good(i) && |o.join| == |i.join|
    && (forall j :: 0 <= j < |o.join| ==> o.join[j].domain == i.join[j].domain)
    && Locatable(i.attrs, i.join)
  }

  ghost predicate Locatable(attrs: seq<Attr>, join: seq<Attr>) {
    forall j | 0 <= j < |attrs| :: LocatableAt(attrs, join, j)
  }

  ghost predicate LocatableAt(attrs: seq<Attr>, join: seq<Attr>, j: nat)
    requires j < |attrs|
  {
    OffsetOf(attrs, attrs[j]).At? && !OffsetOf(join, attrs[j]).Exit?
  }

  lemma OneSchema(o: Relation, i: Relation)
    requires Joinable(o, i)
    ensures SchemaOf(o.join) == SchemaOf(i.join)
  {
    SameSchema(o.join, i.join);
  }

  // ---- the joined tuple ----

  /** The fields of an inner tuple that are not joined on, in the order of the attributes
      from the n-th on. */
  function Rest(attrs: seq<Attr>, join: seq<Attr>, t: Row, n: nat): Row
    requires RowFits(attrs, t) && Locatable(attrs, join) && n <= |attrs|
    decreases |attrs| - n
  {
    if n == |attrs| then []
    else
      assert LocatableAt(attrs, join, n);
      RestField(attrs, join, t, n) + Rest(attrs, join, t, n + 1)
  }

  function RestField(attrs: seq<Attr>, join: seq<Attr>, t: Row, n: nat): Row
    requires RowFits(attrs, t) && n < |attrs| && LocatableAt(attrs, join, n)
  {
    if OffsetOf(join, attrs[n]).Absent? then [ValueOf(attrs, t, attrs[n])] else []
  }

  function Merged(o: Relation, i: Relation, m: Match): Row
    requires Joinable(o, i) && m.0 in o.rows && m.1 in i.rows
  {
    o.rows[m.0] + Rest(i.attrs, i.join, i.rows[m.1], 0)
  }

  /** The loop that copies those fields. */
  method CopyRest(attrs: seq<Attr>, join: seq<Attr>, t: Row) returns (r: Row)
    requires RowFits(attrs, t) && Locatable(attrs, join)
    ensures r == Rest(attrs, join, t, 0)
  {
    r := [];
    var n := 0;
    while n < |attrs|
      invariant n <= |attrs| && r + Rest(attrs, join, t, n) == Rest(attrs, join, t, 0)
    {
      assert LocatableAt(attrs, join, n);
      var field := CopyField(attrs, join, t, n);
      Append(r, field, Rest(attrs, join, t, n + 1));
      r := r + field;
      n := n + 1;
    }
  }

  method CopyField(attrs: seq<Attr>, join: seq<Attr>, t: Row, n: nat) returns (r: Row)
    requires RowFits(attrs, t) && n < |attrs| && LocatableAt(attrs, join, n)
    ensures r == RestField(attrs, join, t, n)
  {
    var inJoin := GetOffset(join, attrs[n]);
    if !inJoin.Absent? { return []; }
    var at := GetOffset(attrs, attrs[n]);
    return [t[at.i]];
  }

  lemma Append(a: Row, b: Row, c: Row)
    ensures a + (b + c) == (a + b) + c
  {
  }

  /** How many of the attributes from the n-th up to the j-th are not joined on. */
  function FreeBefore(attrs: seq<Attr>, join: seq<Attr>, n: nat, j: nat): nat
    requires n <= j <= |attrs|
    decreases j - n
  {
    if n == j then 0 else (if OffsetOf(join, attrs[n]).Absent? then 1 else 0) + FreeBefore(attrs, join, n + 1, j)
  }

  /** Exactly the fields that are not joined on are copied, each to the place that its
      number among them gives it. */
  lemma {:induction false} RestAt(attrs: seq<Attr>, join: seq<Attr>, t: Row, n: nat, j: nat)
    requires RowFits(attrs, t) && Locatable(attrs, join) && n <= j < |attrs| && LocatableAt(attrs, join, j)
    ensures |Rest(attrs, join, t, n)| == FreeBefore(attrs, join, n, |attrs|)
    ensures OffsetOf(join, attrs[j]).Absent? ==>
      FreeBefore(attrs, join, n, j) < |Rest(attrs, join, t, n)|
    ensures OffsetOf(join, attrs[j]).Absent? ==>
      Rest(attrs, join, t, n)[FreeBefore(attrs, join, n, j)] == ValueOf(attrs, t, attrs[j])
    decreases |attrs| - n
  {
    RestSize(attrs, join, t, n);
    if n < j {
      RestAt(attrs, join, t, n + 1, j);
    }
  }

  lemma {:induction false} RestSize(attrs: seq<Attr>, join: seq<Attr>, t: Row, n: nat)
    requires RowFits(attrs, t) && Locatable(attrs, join) && n <= |attrs|
    ensures |Rest(attrs, join, t, n)| == FreeBefore(attrs, join, n, |attrs|)
    decreases |attrs| - n
  {
    if n < |attrs| { RestSize(attrs, join, t, n + 1); }
  }

  /** `t` is the joined tuple of `a` and `b`: the outer tuple, and behind it the fields of
      the inner one that are not joined on, in the order of the attributes. */
  ghost predicate IsJoined(o: Relation, a: Addr, i: Relation, b: Addr, t: Row)
    requires Joinable(o, i) && a in o.rows && b in i.rows
  {
    var n := |o.attrs|;
    && |t| == n + FreeBefore(i.attrs, i.join, 0, |i.attrs|)
    && (forall j :: 0 <= j < n ==> t[j] == o.rows[a][j])
    && forall j | 0 <= j < |i.attrs| && NotJoined(i, i.attrs[j]) ::
         n + FreeBefore(i.attrs, i.join, 0, j) < |t| && OffsetOf(i.attrs, i.attrs[j]).At?
         && t[n + FreeBefore(i.attrs, i.join, 0, j)] == ValueOf(i.attrs, i.rows[b], i.attrs[j])
  }

  /** No join attribute of the relation has the name. */
  predicate NotJoined(rel: Relation, a: Attr) {
    forall k :: 0 <= k < |rel.join| ==> rel.join[k].id != a.id
  }

  lemma MergedIs(o: Relation, i: Relation, m: Match)
    requires Joinable(o, i) && m.0 in o.rows && m.1 in i.rows
    ensures IsJoined(o, m.0, i, m.1, Merged(o, i, m))
  {
    var t := i.rows[m.1];
    RestSize(i.attrs, i.join, t, 0);
    forall j | 0 <= j < |i.attrs| && NotJoined(i, i.attrs[j])
      ensures OffsetOf(i.attrs, i.attrs[j]).At? && FreeBefore(i.attrs, i.join, 0, j) < |Rest(i.attrs, i.join, t, 0)|
      ensures Rest(i.attrs, i.join, t, 0)[FreeBefore(i.attrs, i.join, 0, j)] == ValueOf(i.attrs, t, i.attrs[j])
    {
      assert LocatableAt(i.attrs, i.join, j);
      OffsetIs(i.join, i.attrs[j]);
      RestAt(i.attrs, i.join, t, 0, j);
    }
  }

  // ---- what the join yields ----

  /** The index with its lists, as it is during the join. */
  ghost predicate Probes(sch: Schema, ind: Index, lists: Lists) {
    && IndexOk(sch, ind)
    && forall k | Fits(sch, k) :: Probe(sch, ind, lists, k)
  }

  ghost predicate Probe(sch: Schema, ind: Index, lists: Lists, k: Key)
    requires Fits(sch, k)
  {
    match Lookup(sch, ind, k)
    case None => true
    case Some(Sub(_)) => false
    case Some(List(l)) => l in lists
  }

  /** The matches still to come: each list is used up by the first outer tuple that finds
      it. */
  function Drained(o: Relation, ind: Index, outer: seq<Addr>, lists: Lists): seq<Match>
    requires Good(o) && Stored(o, outer)
  {
    if outer == [] then []
    else
      match Lookup(SchemaOf(o.join), ind, KeyFor(o, outer[0]))
      case Some(List(l)) =>
        (if l in lists then PairsWith(outer[0], lists[l]) else []) + Drained(o, ind, outer[1..], lists[l := []])
      case _ => Drained(o, ind, outer[1..], lists)
  }

  class Join {
    const outerRel: Relation
    const innerRel: Relation
    const ind: Index

    /** What the outer iterator has still to yield. */
    var outer: seq<Addr>
    var lists: Lists
    var currentInner: Option<ListPtr>
    var currentOuter: Addr

    ghost predicate Valid()
      reads this
    {
      && Joinable(outerRel, innerRel) && Stored(outerRel, outer)
      && Probes(SchemaOf(outerRel.join), ind, lists)
      && (forall l <- lists :: Stored(innerRel, lists[l]))
      && (currentInner.Some? ==> currentInner.value in lists)
      && (currentInner.Some? && lists[currentInner.value] != [] ==> currentOuter in outerRel.rows && currentOuter != 0)
    }

    ghost function Pending(): seq<Match>
      requires Valid()
      reads this
    {
      match currentInner
      case None => Drained(outerRel, ind, outer, lists)
      case Some(l) => PairsWith(currentOuter, lists[l]) + Drained(outerRel, ind, outer, lists[l := []])
    }

    /** `index_join` and `index_join_init` */
    constructor (o: Relation, i: Relation, ind: Index, outer: seq<Addr>, lists: Lists)
      requires Joinable(o, i) && Stored(o, outer) && Probes(SchemaOf(o.join), ind, lists)
      requires forall l <- lists :: Stored(i, lists[l])
      ensures Valid() && outerRel == o && innerRel == i && Pending() == Drained(o, ind, outer, lists)
    {
      outerRel, innerRel, this.ind := o, i, ind;
      this.outer, this.lists := outer, lists;
      currentInner, currentOuter := None, 0;
    }

    /** The loop of `index_join_next`: on to an outer tuple with inner tuples left. */
    method Advance()
      requires Valid()
      modifies this`outer, this`currentInner, this`currentOuter
      ensures Valid() && Pending() == old(Pending())
      ensures currentOuter == 0 ==> Pending() == []
      ensures currentOuter != 0 ==> currentInner.Some? && lists[currentInner.value] != []
    {
      while currentInner.None? || lists[currentInner.value] == []
        invariant Valid() && Pending() == old(Pending())
        decreases |outer|
      {
        if currentInner.Some? { assert lists[currentInner.value := []] == lists; }
        if outer == [] {
          currentOuter := 0;
          return;
        }
        currentOuter, outer := outer[0], outer[1..];
        var proj := KeyFor(outerRel, currentOuter);
        assert Probe(SchemaOf(outerRel.join), ind, lists, proj);
        var found := IndexLookup(SchemaOf(outerRel.join), ind, proj);
        currentInner := if found.Some? then Some(found.value.ptr) else None;
      }
    }

    /** `index_join_next`: the next match merged, NULL when there is none. */
    method Next() returns (r: Option<Row>)
      requires Valid()
      modifies this
      ensures Valid()
      ensures r.None? <==> old(Pending()) == []
      ensures r.None? ==> Pending() == []
      ensures r.Some? ==> old(Pending()[0].0 in outerRel.rows && Pending()[0].1 in innerRel.rows)
      ensures r.Some? ==> r.value == Merged(outerRel, innerRel, old(Pending()[0])) && Pending() == old(Pending()[1..])
      ensures r.Some? ==> IsJoined(outerRel, old(Pending()[0].0), innerRel, old(Pending()[0].1), r.value)
    {
      Advance();
      if currentOuter == 0 { return None; }
      var l := currentInner.value;
      var m := (currentOuter, lists[l][0]);
      var rest := CopyRest(innerRel.attrs, innerRel.join, innerRel.rows[m.1]);
      var t := outerRel.rows[currentOuter] + rest;
      MergedIs(outerRel, innerRel, m);
      Taken(currentOuter, lists, l, Drained(outerRel, ind, outer, lists[l := []]));
      lists := lists[l := lists[l][1..]];
      return Some(t);
    }
  }

  lemma Taken(o: Addr, lists: Lists, l: ListPtr, rest: seq<Match>)
    requires l in lists && lists[l] != []
    ensures var all, lists' := PairsWith(o, lists[l]) + rest, lists[l := lists[l][1..]];
      && all != [] && all[0] == (o, lists[l][0]) && all[1..] == PairsWith(o, lists'[l]) + rest
      && lists'[l := []] == lists[l := []]
  {
  }

  // ---- the join against the nested loop ----

  /** The nested-loop equi-join, in outer order. */
  function Nested(o: Relation, i: Relation, outer: seq<Addr>, inner: seq<Addr>): seq<Match>
    requires Good(o) && Good(i) && Stored(o, outer) && Stored(i, inner)
  {
    if outer == [] then []
    else PairsWith(outer[0], Matches(i, inner, KeyFor(o, outer[0]))) + Nested(o, i, outer[1..], inner)
  }

  /** The same, but only for the first outer tuple of each key; `seen` holds the keys of
      earlier ones. */
  ghost function Firsts(o: Relation, i: Relation, outer: seq<Addr>, inner: seq<Addr>, seen: set<Key>): seq<Match>
    requires Good(o) && Good(i) && Stored(o, outer) && Stored(i, inner)
  {
    if outer == [] then []
    else
      var k := KeyFor(o, outer[0]);
      (if k in seen then [] else PairsWith(outer[0], Matches(i, inner, k)))
        + Firsts(o, i, outer[1..], inner, seen + {k})
  }

  /** The lists of the keys seen are used up, the others are as the index scan left them. */
  ghost predicate Used(i: Relation, ind: Index, lists: Lists, inner: seq<Addr>, seen: set<Key>)
    requires Good(i) && Stored(i, inner)
  {
    var sch := SchemaOf(i.join);
    && (forall k {:trigger UsedUp(i, ind, lists, inner, seen, k)} | Fits(sch, k) :: UsedUp(i, ind, lists, inner, seen, k))
    && forall k, k' {:trigger Apart(sch, ind, k, k')} | Fits(sch, k) && Fits(sch, k') :: Apart(sch, ind, k, k')
  }

  ghost predicate UsedUp(i: Relation, ind: Index, lists: Lists, inner: seq<Addr>, seen: set<Key>, k: Key)
    requires Good(i) && Stored(i, inner) && Fits(SchemaOf(i.join), k)
  {
    match Lookup(SchemaOf(i.join), ind, k)
    case None => Matches(i, inner, k) == []
    case Some(Sub(_)) => false
    case Some(List(l)) => l in lists && lists[l] == if k in seen then [] else Matches(i, inner, k)
  }

  lemma UseUp(i: Relation, ind: Index, lists: Lists, inner: seq<Addr>, seen: set<Key>, k: Key)
    requires Good(i) && Stored(i, inner) && Fits(SchemaOf(i.join), k) && Used(i, ind, lists, inner, seen)
    ensures match Lookup(SchemaOf(i.join), ind, k)
      case Some(List(l)) => Used(i, ind, lists[l := []], inner, seen + {k})
      case _ => Used(i, ind, lists, inner, seen + {k})
  {
    var sch := SchemaOf(i.join);
    var lists' := match Lookup(sch, ind, k) case Some(List(l)) => lists[l := []] case _ => lists;
    forall x | Fits(sch, x) ensures UsedUp(i, ind, lists', inner, seen + {k}, x) {
      assert UsedUp(i, ind, lists, inner, seen, x) && UsedUp(i, ind, lists, inner, seen, k) && Apart(sch, ind, x, k);
    }
  }

  /** The first outer tuple yields its matches, if its key is new, and uses up their list. */
  lemma DrainOne(o: Relation, i: Relation, ind: Index, outer: seq<Addr>, lists: Lists, inner: seq<Addr>, seen: set<Key>)
      returns (lists': Lists)
    requires Joinable(o, i) && Stored(o, outer) && Stored(i, inner) && Used(i, ind, lists, inner, seen) && outer != []
    ensures Used(i, ind, lists', inner, seen + {KeyFor(o, outer[0])})
    ensures SchemaOf(o.join) == SchemaOf(i.join)
    ensures
      var k := KeyFor(o, outer[0]);
      Drained(o, ind, outer, lists) ==
        (if k in seen then [] else PairsWith(outer[0], Matches(i, inner, k))) + Drained(o, ind, outer[1..], lists')
  {
    var k := KeyFor(o, outer[0]);
    OneSchema(o, i);
    assert UsedUp(i, ind, lists, inner, seen, k);
    UseUp(i, ind, lists, inner, seen, k);
    var found := Lookup(SchemaOf(o.join), ind, k);
    lists' := if found.Some? then lists[found.value.ptr := []] else lists;
    assert PairsWith(outer[0], []) == [];
  }

  /** Draining the join yields the matches of the first outer tuple of each key, in outer
      order, whatever the outer tuples are. */
  lemma {:induction false} DrainedIsFirsts(o: Relation, i: Relation, ind: Index, outer: seq<Addr>, lists: Lists,
      inner: seq<Addr>, seen: set<Key>)
    requires Joinable(o, i) && Stored(o, outer) && Stored(i, inner) && Used(i, ind, lists, inner, seen)
    ensures Drained(o, ind, outer, lists) == Firsts(o, i, outer, inner, seen)
    decreases |outer|
  {
    if outer != [] {
      var lists' := DrainOne(o, i, ind, outer, lists, inner, seen);
      DrainedIsFirsts(o, i, ind, outer[1..], lists', inner, seen + {KeyFor(o, outer[0])});
    }
  }

  ghost predicate NoMatch(o: Relation, i: Relation, inner: seq<Addr>, a: Addr)
    requires Good(o) && Good(i) && Stored(i, inner) && a in o.rows
  {
    Matches(i, inner, KeyFor(o, a)) == []
  }

  /** No outer tuple with a match has the key of an earlier one. */
  ghost predicate KeysOnce(o: Relation, i: Relation, outer: seq<Addr>, inner: seq<Addr>)
    requires Good(o) && Good(i) && Stored(o, outer) && Stored(i, inner)
  {
    forall a, b :: 0 <= a < b < |outer| && KeyFor(o, outer[a]) == KeyFor(o, outer[b]) ==> NoMatch(o, i, inner, outer[b])
  }

  ghost predicate NoneSeen(o: Relation, i: Relation, outer: seq<Addr>, inner: seq<Addr>, seen: set<Key>)
    requires Good(o) && Good(i) && Stored(o, outer) && Stored(i, inner)
  {
    forall b :: 0 <= b < |outer| && KeyFor(o, outer[b]) in seen ==> NoMatch(o, i, inner, outer[b])
  }

  // ---- what the matches are, in terms of the tuples ----

  type Places = seq<(nat, nat)>

  predicate Before(p: (nat, nat), q: (nat, nat)) {
    p.0 < q.0 || (p.0 == q.0 && p.1 < q.1)
  }

  ghost predicate InOrder(at: Places) {
    forall j, k :: 0 <= j < k < |at| ==> Before(at[j], at[k])
  }

  /** The pairs of tuples at these places of the two scans, in order. */
  ghost predicate PairsAt(outer: seq<Addr>, inner: seq<Addr>, at: Places, ms: seq<Match>) {
    InOrder(at) && |at| == |ms| && forall j :: 0 <= j < |at| ==> PairAt(outer, inner, at[j], ms[j])
  }

  ghost predicate PairAt(outer: seq<Addr>, inner: seq<Addr>, place: (nat, nat), m: Match) {
    place.0 < |outer| && place.1 < |inner| && m == (outer[place.0], inner[place.1])
  }

  /** The matches are all pairs that agree in the join attributes, in outer order and for
      each outer tuple in inner order. */
  ghost predicate AllAgreeing(o: Relation, i: Relation, outer: seq<Addr>, inner: seq<Addr>, at: Places, ms: seq<Match>)
    requires Joinable(o, i) && Stored(o, outer) && Stored(i, inner)
  {
    && PairsAt(outer, inner, at, ms)
    && forall x, y :: 0 <= x < |outer| && 0 <= y < |inner| ==> ((x, y) in at <==> Agree(o, outer[x], i, inner[y]))
  }

  /** No outer tuple before place `x` has the key of the one there. */
  ghost predicate IsFirst(o: Relation, outer: seq<Addr>, x: nat)
    requires Good(o) && Stored(o, outer) && x < |outer|
  {
    forall z :: 0 <= z < x ==> !Agree(o, outer[z], o, outer[x])
  }

  /** The matches are the agreeing pairs of the first outer tuple of each key. */
  ghost predicate FirstAgreeing(o: Relation, i: Relation, outer: seq<Addr>, inner: seq<Addr>, at: Places, ms: seq<Match>)
    requires Joinable(o, i) && Stored(o, outer) && Stored(i, inner)
  {
    && PairsAt(outer, inner, at, ms)
    && forall x, y :: 0 <= x < |outer| && 0 <= y < |inner| ==>
         ((x, y) in at <==> Agree(o, outer[x], i, inner[y]) && IsFirst(o, outer, x))
  }

  /** The places of the pairs with the first outer tuple, and behind them those of the rest. */
  function Stack(head: seq<nat>, tail: Places): (at: Places)
    ensures |at| == |head| + |tail|
  {
    seq(|head| + |tail|, j requires 0 <= j < |head| + |tail| =>
      if j < |head| then (0, head[j]) else (tail[j - |head|].0 + 1, tail[j - |head|].1))
  }

  lemma StackHas(head: seq<nat>, tail: Places, x: nat, y: nat)
    ensures (x, y) in Stack(head, tail) <==> if x == 0 then y in head else (x - 1, y) in tail
  {
    var at := Stack(head, tail);
    if (x, y) in at {
      var j :| 0 <= j < |at| && at[j] == (x, y);
      if j < |head| { assert head[j] == y; } else { assert tail[j - |head|] == (x - 1, y); }
    }
    if x == 0 && y in head {
      var j :| 0 <= j < |head| && head[j] == y;
      assert at[j] == (x, y);
    }
    if x > 0 && (x - 1, y) in tail {
      var j :| 0 <= j < |tail| && tail[j] == (x - 1, y);
      assert at[|head| + j] == (x, y);
    }
  }

  lemma StackPairs(outer: seq<Addr>, inner: seq<Addr>, head: seq<nat>, tail: Places, found: seq<Addr>, ms: seq<Match>)
    requires outer != [] && Picks(inner, head, found) && PairsAt(outer[1..], inner, tail, ms)
    ensures PairsAt(outer, inner, Stack(head, tail), PairsWith(outer[0], found) + ms)
  {
    StackInOrder(head, tail);
    forall j | 0 <= j < |head| + |tail| ensures PairAt(outer, inner, Stack(head, tail)[j], (PairsWith(outer[0], found) + ms)[j]) {
      if j >= |head| { assert PairAt(outer[1..], inner, tail[j - |head|], ms[j - |head|]); }
    }
  }

  lemma StackInOrder(head: seq<nat>, tail: Places)
    requires Ascending(head) && InOrder(tail)
    ensures InOrder(Stack(head, tail))
  {
    var at := Stack(head, tail);
    forall j, k | 0 <= j < k < |at| ensures Before(at[j], at[k]) {
      if j >= |head| { assert Before(tail[j - |head|], tail[k - |head|]); }
    }
  }

  /** The nested loop yields all agreeing pairs. */
  lemma {:induction false} NestedAgree(o: Relation, i: Relation, outer: seq<Addr>, inner: seq<Addr>) returns (at: Places)
    requires Joinable(o, i) && Stored(o, outer) && Stored(i, inner)
    ensures AllAgreeing(o, i, outer, inner, at, Nested(o, i, outer, inner))
    decreases |outer|
  {
    at := [];
    if outer != [] {
      OneSchema(o, i);
      var head := MatchesAgree(o, outer[0], i, inner);
      var tail := NestedAgree(o, i, outer[1..], inner);
      at := Stack(head, tail);
      StackPairs(outer, inner, head, tail, Matches(i, inner, KeyFor(o, outer[0])), Nested(o, i, outer[1..], inner));
      forall x, y | 0 <= x < |outer| && 0 <= y < |inner| ensures (x, y) in at <==> Agree(o, outer[x], i, inner[y]) {
        StackHas(head, tail, x, y);
        if x > 0 { assert outer[x] == outer[1..][x - 1]; }
      }
    }
  }

  ghost predicate FirstUnseen(o: Relation, outer: seq<Addr>, seen: set<Key>, x: nat)
    requires Good(o) && Stored(o, outer) && x < |outer|
  {
    KeyFor(o, outer[x]) !in seen && forall z :: 0 <= z < x ==> KeyFor(o, outer[z]) != KeyFor(o, outer[x])
  }

  lemma UnseenBehind(o: Relation, outer: seq<Addr>, seen: set<Key>, x: nat)
    requires Good(o) && Stored(o, outer) && 0 < x < |outer|
    ensures FirstUnseen(o, outer, seen, x) <==> FirstUnseen(o, outer[1..], seen + {KeyFor(o, outer[0])}, x - 1)
  {
    assert forall z :: 1 <= z <= x ==> outer[z] == outer[1..][z - 1];
  }

  lemma {:induction false} FirstsAgree(o: Relation, i: Relation, outer: seq<Addr>, inner: seq<Addr>, seen: set<Key>)
      returns (at: Places)
    requires Joinable(o, i) && Stored(o, outer) && Stored(i, inner)
    ensures PairsAt(outer, inner, at, Firsts(o, i, outer, inner, seen))
    ensures forall x, y :: 0 <= x < |outer| && 0 <= y < |inner| ==>
      ((x, y) in at <==> Agree(o, outer[x], i, inner[y]) && FirstUnseen(o, outer, seen, x))
    decreases |outer|
  {
    at := [];
    if outer != [] {
      OneSchema(o, i);
      var k := KeyFor(o, outer[0]);
      var all := MatchesAgree(o, outer[0], i, inner);
      var head, found := if k in seen then [] else all, if k in seen then [] else Matches(i, inner, k);
      var tail := FirstsAgree(o, i, outer[1..], inner, seen + {k});
      at := Stack(head, tail);
      assert PairsWith(outer[0], []) == [];
      StackPairs(outer, inner, head, tail, found, Firsts(o, i, outer[1..], inner, seen + {k}));
      forall x, y | 0 <= x < |outer| && 0 <= y < |inner|
        ensures (x, y) in at <==> Agree(o, outer[x], i, inner[y]) && FirstUnseen(o, outer, seen, x)
      {
        StackHas(head, tail, x, y);
        if x > 0 {
          assert outer[x] == outer[1..][x - 1];
          UnseenBehind(o, outer, seen, x);
        }
      }
    }
  }

  /** The join yields the agreeing pairs of the first outer tuple of each key. */
  lemma FirstsAreAgreeing(o: Relation, i: Relation, outer: seq<Addr>, inner: seq<Addr>) returns (at: Places)
    requires Joinable(o, i) && Stored(o, outer) && Stored(i, inner)
    ensures FirstAgreeing(o, i, outer, inner, at, Firsts(o, i, outer, inner, {}))
  {
    at := FirstsAgree(o, i, outer, inner, {});
    forall x | 0 <= x < |outer| ensures FirstUnseen(o, outer, {}, x) <==> IsFirst(o, outer, x) {
      forall z | 0 <= z < x ensures KeyFor(o, outer[z]) == KeyFor(o, outer[x]) <==> Agree(o, outer[z], o, outer[x]) {
        KeysAgree(o, outer[z], o, outer[x]);
      }
    }
  }

  // ---- when the join is the nested loop ----

  lemma {:induction false} FirstsShorter(o: Relation, i: Relation, outer: seq<Addr>, inner: seq<Addr>, seen: set<Key>)
    requires Good(o) && Good(i) && Stored(o, outer) && Stored(i, inner)
    ensures |Firsts(o, i, outer, inner, seen)| <= |Nested(o, i, outer, inner)|
    decreases |outer|
  {
    if outer != [] { FirstsShorter(o, i, outer[1..], inner, seen + {KeyFor(o, outer[0])}); }
  }

  lemma OnceStep(o: Relation, i: Relation, outer: seq<Addr>, inner: seq<Addr>, seen: set<Key>)
    requires Good(o) && Good(i) && Stored(o, outer) && Stored(i, inner) && outer != []
    ensures var k := KeyFor(o, outer[0]);
      (KeysOnce(o, i, outer, inner) && NoneSeen(o, i, outer, inner, seen)) <==>
      ((k in seen ==> NoMatch(o, i, inner, outer[0]))
        && KeysOnce(o, i, outer[1..], inner) && NoneSeen(o, i, outer[1..], inner, seen + {k}))
  {
    var k, rest := KeyFor(o, outer[0]), outer[1..];
    assert forall b :: 1 <= b < |outer| ==> outer[b] == rest[b - 1];
    if (k in seen ==> NoMatch(o, i, inner, outer[0])) && KeysOnce(o, i, rest, inner) && NoneSeen(o, i, rest, inner, seen + {k}) {
      OnceWithFirst(o, i, outer, inner, seen);
    }
  }

  lemma OnceWithFirst(o: Relation, i: Relation, outer: seq<Addr>, inner: seq<Addr>, seen: set<Key>)
    requires Good(o) && Good(i) && Stored(o, outer) && Stored(i, inner) && outer != []
    requires KeysOnce(o, i, outer[1..], inner) && NoneSeen(o, i, outer[1..], inner, seen + {KeyFor(o, outer[0])})
    ensures KeysOnce(o, i, outer, inner)
  {
    var rest := outer[1..];
    forall a, b | 0 <= a < b < |outer| && KeyFor(o, outer[a]) == KeyFor(o, outer[b])
      ensures NoMatch(o, i, inner, outer[b])
    {
      assert outer[b] == rest[b - 1];
      if a > 0 { assert outer[a] == rest[a - 1]; }
    }
  }

  lemma {:induction false} FirstsAreAll(o: Relation, i: Relation, outer: seq<Addr>, inner: seq<Addr>, seen: set<Key>)
    requires Good(o) && Good(i) && Stored(o, outer) && Stored(i, inner)
    ensures Firsts(o, i, outer, inner, seen) == Nested(o, i, outer, inner) <==>
      KeysOnce(o, i, outer, inner) && NoneSeen(o, i, outer, inner, seen)
    decreases |outer|
  {
    if outer != [] {
      var k := KeyFor(o, outer[0]);
      var pairs := PairsWith(outer[0], Matches(i, inner, k));
      var f, n := Firsts(o, i, outer[1..], inner, seen + {k}), Nested(o, i, outer[1..], inner);
      FirstsAreAll(o, i, outer[1..], inner, seen + {k});
      FirstsShorter(o, i, outer[1..], inner, seen + {k});
      OnceStep(o, i, outer, inner, seen);
      SamePrefix(pairs, f, n);
    }
  }

  lemma SamePrefix(a: seq<Match>, f: seq<Match>, n: seq<Match>)
    ensures a + f == a + n <==> f == n
  {
    assert (a + f)[|a|..] == f && (a + n)[|a|..] == n;
  }

  /** The main result: with the index that the scan of the inner relation builds, draining
      the join yields the nested-loop equi-join if and only if no outer tuple with a match
      has the key of an earlier outer tuple. */
  lemma JoinIsNestedLoop(o: Relation, i: Relation, ind: Index, outer: seq<Addr>, lists: Lists, inner: seq<Addr>)
    requires Joinable(o, i) && Stored(o, outer) && Stored(i, inner) && Indexed(i, ind, lists, inner)
    ensures Drained(o, ind, outer, lists) == Firsts(o, i, outer, inner, {})
    ensures Drained(o, ind, outer, lists) == Nested(o, i, outer, inner) <==> KeysOnce(o, i, outer, inner)
  {
    var sch := SchemaOf(i.join);
    forall k | Fits(sch, k) ensures UsedUp(i, ind, lists, inner, {}, k) {
      assert EntryOk(i, ind, lists, inner, k);
    }
    DrainedIsFirsts(o, i, ind, outer, lists, inner, {});
    FirstsAreAll(o, i, outer, inner, {});
  }

  /** Two outer tuples with one key and one inner tuple: the nested loop yields two
      matches, the join one, because the first match has used up the list. */
  lemma JoinCanDiffer() returns (o: Relation, i: Relation, ind: Index, outer: seq<Addr>, lists: Lists, inner: seq<Addr>)
    ensures Joinable(o, i) && Stored(o, outer) && Stored(i, inner) && Indexed(i, ind, lists, inner)
    ensures outer == [1, 2] && inner == [3]
    ensures Drained(o, ind, outer, lists) == [(1, 3)] && Nested(o, i, outer, inner) == [(1, 3), (2, 3)]
  {
    o, i := Keyed(map[1 := [Num(7)], 2 := [Num(7)]]), Keyed(map[3 := [Num(7)]]);
    outer, inner := [1, 2], [3];
    KeyedOk(o.rows);
    KeyedOk(i.rows);
    assert LocatableAt(i.attrs, i.join, 0);
    ind, lists := IndexOfOne(i);
    OneIsUsedUp(o, i, ind, lists);
  }

  /** A relation with one attribute, which it is joined on. */
  function Keyed(rows: map<Addr, Row>): Relation {
    Relation([Attr("id", IntDomain)], [Attr("id", IntDomain)], rows)
  }

  lemma KeyedOk(rows: map<Addr, Row>)
    requires forall a <- rows :: rows[a] == [Num(7)]
    ensures Good(Keyed(rows)) && SchemaOf(Keyed(rows).join) == Int
    ensures OffsetOf(Keyed(rows).attrs, Keyed(rows).attrs[0]) == At(0)
    ensures forall a <- rows :: KeyFor(Keyed(rows), a) == Single(Num(7))
  {
    var attrs := Keyed(rows).attrs;
    assert OffsetFrom(attrs, 0, attrs[0]) == At(0);
    forall a | a in rows ensures KeyFor(Keyed(rows), a) == Single(Num(7)) {
      assert KeyOf(attrs, rows[a], attrs) == Single(rows[a][0]);
    }
  }

  lemma IndexOfOne(i: Relation) returns (ind: Index, lists: Lists)
    requires Good(i) && Stored(i, [3])
    ensures Indexed(i, ind, lists, [3])
  {
    var sch := SchemaOf(i.join);
    NothingIndexed(i);
    assert [3][0] in i.rows;
    assert EntryOk(i, IndexNew(sch), map[], [], KeyFor(i, 3));
    AddTuple(i, IndexNew(sch), map[], [], 3, 0);
    assert [] + [3] == [3];
    ind, lists := Insert(sch, IndexNew(sch), KeyFor(i, 3), List(0)), Appended(map[], 0, 3);
  }

  lemma OneIsUsedUp(o: Relation, i: Relation, ind: Index, lists: Lists)
    requires Joinable(o, i) && Stored(o, [1, 2]) && Stored(i, [3]) && Indexed(i, ind, lists, [3])
    requires 1 in o.rows && 2 in o.rows && 3 in i.rows && KeyFor(o, 1) == KeyFor(o, 2) == KeyFor(i, 3)
    ensures Drained(o, ind, [1, 2], lists) == [(1, 3)] && Nested(o, i, [1, 2], [3]) == [(1, 3), (2, 3)]
  {
    var k := KeyFor(i, 3);
    OneMatch(i, [3], k);
    NestedTwice(o, i, [1, 2], [3], k);
    JoinIsNestedLoop(o, i, ind, [1, 2], lists, [3]);
    FirstsOnce(o, i, [1, 2], [3], k);
  }

  lemma OneMatch(i: Relation, inner: seq<Addr>, k: Key)
    requires Good(i) && Stored(i, inner) && inner == [3] && KeyFor(i, inner[0]) == k
    ensures Matches(i, inner, k) == [3]
  {
    assert inner[..0] == [];
  }

  lemma NestedTwice(o: Relation, i: Relation, outer: seq<Addr>, inner: seq<Addr>, k: Key)
    requires Good(o) && Good(i) && Stored(o, outer) && Stored(i, inner) && outer == [1, 2]
    requires KeyFor(o, outer[0]) == KeyFor(o, outer[1]) == k && Matches(i, inner, k) == [3]
    ensures Nested(o, i, outer, inner) == [(1, 3), (2, 3)]
  {
    assert outer[1..] == [2] && [2][1..] == [];
    assert PairsWith(1, [3]) == [(1, 3)] && PairsWith(2, [3]) == [(2, 3)];
    assert Nested(o, i, [2], inner) == [(2, 3)];
  }

  lemma FirstsOnce(o: Relation, i: Relation, outer: seq<Addr>, inner: seq<Addr>, k: Key)
    requires Good(o) && Good(i) && Stored(o, outer) && Stored(i, inner) && outer == [1, 2]
    requires KeyFor(o, outer[0]) == KeyFor(o, outer[1]) == k && Matches(i, inner, k) == [3]
    ensures Firsts(o, i, outer, inner, {}) == [(1, 3)]
  {
    assert outer[1..] == [2] && [2][1..] == [];
    assert PairsWith(1, [3]) == [(1, 3)];
    assert Firsts(o, i, [2], inner, {} + {k}) == [];
  }

  // ---- a whole join of two relations ----

  /** The rows are the joined tuples of these pairs, in order. */
  ghost predicate RowsOf(o: Relation, i: Relation, outer: seq<Addr>, inner: seq<Addr>, at: Places, out: seq<Row>)
    requires Joinable(o, i) && Stored(o, outer) && Stored(i, inner)
  {
    && |out| == |at|
    && forall j :: 0 <= j < |at| ==>
         at[j].0 < |outer| && at[j].1 < |inner| && IsJoined(o, outer[at[j].0], i, inner[at[j].1], out[j])
  }

  /** The result of a join: a row for each inner tuple that agrees with the first outer
      tuple of its key. */
  ghost predicate JoinResult(o: Relation, i: Relation, outer: seq<Addr>, inner: seq<Addr>, at: Places, out: seq<Row>)
    requires Joinable(o, i) && Stored(o, outer) && Stored(i, inner)
  {
    && RowsOf(o, i, outer, inner, at, out)
    && FirstAgreeing(o, i, outer, inner, at, Firsts(o, i, outer, inner, {}))
  }

  lemma ResultIs(o: Relation, i: Relation, outer: seq<Addr>, inner: seq<Addr>, out: seq<Row>) returns (at: Places)
    requires Joinable(o, i) && Stored(o, outer) && Stored(i, inner)
    requires MatchesIn(o, i, Firsts(o, i, outer, inner, {})) && out == MergedAll(o, i, Firsts(o, i, outer, inner, {}))
    ensures JoinResult(o, i, outer, inner, at, out)
  {
    at := FirstsAreAgreeing(o, i, outer, inner);
    var ms := Firsts(o, i, outer, inner, {});
    forall j | 0 <= j < |at|
      ensures at[j].0 < |outer| && at[j].1 < |inner| && IsJoined(o, outer[at[j].0], i, inner[at[j].1], out[j])
    {
      assert PairAt(outer, inner, at[j], ms[j]);
      MergedIs(o, i, ms[j]);
    }
  }

  ghost predicate MatchesIn(o: Relation, i: Relation, ms: seq<Match>) {
    forall j :: 0 <= j < |ms| ==> ms[j].0 in o.rows && ms[j].1 in i.rows
  }

  ghost function MergedAll(o: Relation, i: Relation, ms: seq<Match>): seq<Row>
    requires Joinable(o, i) && MatchesIn(o, i, ms)
  {
    seq(|ms|, j requires 0 <= j < |ms| => Merged(o, i, ms[j]))
  }

  /** The index scan leaves what the join needs. */
  lemma IndexedProbes(i: Relation, ind: Index, lists: Lists, inner: seq<Addr>)
    requires Good(i) && Stored(i, inner) && Indexed(i, ind, lists, inner)
    ensures Probes(SchemaOf(i.join), ind, lists)
  {
    forall k | Fits(SchemaOf(i.join), k) ensures Probe(SchemaOf(i.join), ind, lists, k) {
      assert EntryOk(i, ind, lists, inner, k);
    }
  }

  /** `materialize` of an index join. */
  method DrainJoin(join: Join) returns (out: seq<Row>)
    requires join.Valid() && MatchesIn(join.outerRel, join.innerRel, join.Pending())
    modifies join
    ensures out == MergedAll(join.outerRel, join.innerRel, old(join.Pending()))
    decreases |join.Pending()|
  {
    ghost var o, i, ms := join.outerRel, join.innerRel, join.Pending();
    out := [];
    while true
      invariant join.Valid() && |out| <= |ms| && join.Pending() == ms[|out|..]
      invariant forall j :: 0 <= j < |out| ==> out[j] == Merged(o, i, ms[j])
      decreases |ms| - |out|
    {
      var t := join.Next();
      if t.None? { return; }
      out := out + [t.value];
    }
  }

  lemma {:induction false} DrainedIn(o: Relation, i: Relation, ind: Index, outer: seq<Addr>, lists: Lists)
    requires Good(o) && Stored(o, outer) && forall l <- lists :: Stored(i, lists[l])
    ensures MatchesIn(o, i, Drained(o, ind, outer, lists))
    decreases |outer|
  {
    if outer != [] {
      var found := Lookup(SchemaOf(o.join), ind, KeyFor(o, outer[0]));
      if found.Some? && found.value.List? {
        DrainedIn(o, i, ind, outer[1..], lists[found.value.ptr := []]);
      } else {
        DrainedIn(o, i, ind, outer[1..], lists);
      }
    }
  }

  /** Two relations stored in B+-trees, the inner one scanned into an index and the outer
      one joined to it. */
  method JoinRelations(oc: BTreeCursor.Cursor, ic: BTreeCursor.Cursor, o: Relation, i: Relation) returns (out: seq<Row>)
    requires oc.Consistent() && ic.Consistent() && oc != ic && oc.ancestorsIdx != ic.ancestorsIdx && Joinable(o, i)
    requires Stored(o, Addrs(BTree.Recs(oc.relation.root))) && Stored(i, Addrs(BTree.Recs(ic.relation.root)))
    modifies oc`level, oc.ancestorsIdx, ic`level, ic.ancestorsIdx
    ensures var outer, inner := Addrs(BTree.Recs(oc.relation.root)), Addrs(BTree.Recs(ic.relation.root));
      && MatchesIn(o, i, Firsts(o, i, outer, inner, {}))
      && out == MergedAll(o, i, Firsts(o, i, outer, inner, {}))
      && (exists at :: JoinResult(o, i, outer, inner, at, out))
      && (KeysOnce(o, i, outer, inner) <==> Firsts(o, i, outer, inner, {}) == Nested(o, i, outer, inner))
  {
    ghost var outerAddrs, innerAddrs := Addrs(BTree.Recs(oc.relation.root)), Addrs(BTree.Recs(ic.relation.root));
    var ind, lists := Scan(ic, i);
    var outer := Materialize(oc);
    JoinIsNestedLoop(o, i, ind, outer, lists, innerAddrs);
    IndexedProbes(i, ind, lists, innerAddrs);
    OneSchema(o, i);
    DrainedIn(o, i, ind, outer, lists);
    var join := new Join(o, i, ind, outer, lists);
    out := DrainJoin(join);
    ghost var at := ResultIs(o, i, outerAddrs, innerAddrs, out);
  }
}
