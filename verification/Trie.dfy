/** The trie of key slices: every layer is an ordered index from slices to border
    nodes, and a border node holds the keys that share a slice. */
module Trie {
  import opened KeySlice

  /** A `void *` value; 0 is NULL. */
  type Value = nat
  const NULL: Value := 0

  /** `keySuffix`/`suffixLink`: nothing, one key's remaining bytes, or a further layer. */
  datatype Tail = NoTail | Suffix(rest: Key, value: Value) | Link(layer: Layer)

  /** `prefix` has the lengths whose flag is set, with their values. */
  datatype Border = Border(prefix: map<nat, Value>, tail: Tail)

  /** The inner index of a layer, taken by its contract: an ordered map. */
  datatype Layer = Layer(nodes: map<nat, Border>)

  const EmptyBorder := Border(map[], NoTail)
  const EmptyLayer := Layer(map[])

  // ---- the code ----

  /** `BN_SetValue` */
  function SetValue(b: Border, key: Key, v: Value): Border {
    if |key| > SLICE then b.(tail := Suffix(key[SLICE..], v))
    else b.(prefix := b.prefix[|key| := v])
  }

  function CreatePair(key1: Key, key2: Key, v1: Value, v2: Value): Layer
    decreases |key1|
  {
    var s1, s2 := Slice(key1), Slice(key2);
    if s1 == s2 then
      if |key1| <= SLICE || |key2| <= SLICE then
        Layer(map[s1 := SetValue(SetValue(EmptyBorder, key1, v1), key2, v2)])
      else
        Layer(map[s1 := EmptyBorder.(tail := Link(CreatePair(key1[SLICE..], key2[SLICE..], v1, v2)))])
    else
      Layer(map[s2 := SetValue(EmptyBorder, key2, v2)][s1 := SetValue(EmptyBorder, key1, v1)])
  }

  function Put(key: Key, v: Value, index: Layer): Layer
    decreases |key|, 0
  {
    var s := Slice(key);
    if s in index.nodes then
      var b := index.nodes[s];
      Layer(index.nodes[s :=
        if |key| <= SLICE then b.(prefix := b.prefix[|key| := v])
        else b.(tail := PutTail(key[SLICE..], v, b.tail))])
    else
      Layer(index.nodes[s := SetValue(EmptyBorder, key, v)])
  }

  /** The part of `put` for keys longer than a slice. */
  function PutTail(rest: Key, v: Value, tail: Tail): Tail
    decreases |rest|, 1
  {
    match tail
    case Suffix(old_rest, old_value) =>
      if old_rest == rest then Suffix(rest, v) else Link(CreatePair(rest, old_rest, v, old_value))
    case Link(sub) => Link(Put(rest, v, sub))
    case NoTail => Suffix(rest, v)
  }

  /** `getValueOfPartialKey`: NULL when the key is not there. */
  function Lookup(key: Key, index: Layer): Value
    decreases |key|
  {
    var s := Slice(key);
    if s !in index.nodes then NULL
    else
      var b := index.nodes[s];
      if |key| <= SLICE then
        if |key| in b.prefix then b.prefix[|key|] else NULL
      else match b.tail
        case Suffix(rest, v) => if rest == key[SLICE..] then v else NULL
        case Link(sub) => Lookup(key[SLICE..], sub)
        case NoTail => NULL
  }

  /** The loop of `UTIL_StrEqual`. */
  method StrEqual(a: Key, b: Key) returns (equal: bool)
    ensures equal <==> a == b
  {
    if |a| != |b| {
      return false;
    }
    var i := 0;
    while i < |a|
      invariant 0 <= i <= |a| && a[..i] == b[..i]
    {
      if a[i] != b[i] {
        return false;
      }
      i := i + 1;
    }
    assert a[..i] == a && b[..i] == b;
    return true;
  }

  // ---- the one trie that stands for a map ----

  /** The eight bytes that a slice packs. */
  function Head(s: nat): (p: Key)
    ensures |p| == SLICE
  {
    Bytes(s, SLICE)
  }

  ghost function Slices(m: map<Key, Value>): set<nat> {
    set k | k in m :: Slice(k)
  }

  /** The keys of at most eight bytes with slice `s`, by length. */
  ghost function Shorts(m: map<Key, Value>, s: nat): map<nat, Value> {
    map i: nat | i <= SLICE && Slice(Head(s)[..i]) == s && Head(s)[..i] in m :: m[Head(s)[..i]]
  }

  ghost function RestKeys(m: map<Key, Value>, s: nat): set<Key> {
    set k | k in m && |k| > SLICE && k[..SLICE] == Head(s) :: k[SLICE..]
  }

  /** The remaining bytes of the longer keys with slice `s`. */
  ghost function Rests(m: map<Key, Value>, s: nat): map<Key, Value> {
    map r | r in RestKeys(m, s) && Head(s) + r in m :: m[Head(s) + r]
  }

  /** `index` is the trie of the map `m`: no slice, border entry, suffix or layer more
      than needed, and a further layer only where two keys share a slice. */
  ghost predicate Canon(index: Layer, m: map<Key, Value>) {
    index.nodes.Keys == Slices(m) && forall s <- index.nodes :: CanonBorder(index.nodes[s], m, s)
  }

  ghost predicate CanonBorder(b: Border, m: map<Key, Value>, s: nat) {
    b.prefix == Shorts(m, s) && CanonTail(b.tail, Rests(m, s))
  }

  ghost predicate CanonTail(tail: Tail, rests: map<Key, Value>) {
    match tail
    case NoTail => rests == map[]
    case Suffix(r, v) => rests == map[r := v]
    case Link(sub) => |rests| >= 2 && Canon(sub, rests)
  }

  // ---- keys by slice ----

  lemma KeyOfSlice(k: Key, s: nat)
    requires IsSlice(s)
    ensures |k| <= SLICE ==> (Slice(k) == s <==> k == Head(s)[..|k|] && Slice(Head(s)[..|k|]) == s)
    ensures |k| >= SLICE ==> (Slice(k) == s <==> k[..SLICE] == Head(s))
  {
    SliceHead(k);
    WordIsEightBytes();
    NumOfBytes(s, SLICE);
    if |k| >= SLICE { assert Pad(k) == k[..SLICE]; }
  }

  lemma RestIn(m: map<Key, Value>, s: nat, r: Key)
    ensures r in Rests(m, s) <==> r != [] && Head(s) + r in m
    ensures r in Rests(m, s) ==> Rests(m, s)[r] == m[Head(s) + r]
  {
    var k := Head(s) + r;
    if k in m && r != [] {
      assert |k| > SLICE && k[..SLICE] == Head(s) && k[SLICE..] == r;
    }
    if r in RestKeys(m, s) {
      var k' :| k' in m && |k'| > SLICE && k'[..SLICE] == Head(s) && k'[SLICE..] == r;
      assert k' == k'[..SLICE] + k'[SLICE..];
    }
  }

  /** How one more key changes what a border node has to hold. */
  lemma ShortsUpdate(m: map<Key, Value>, k: Key, v: Value, s: nat)
    requires IsSlice(s)
    ensures Shorts(m[k := v], s) ==
      if |k| <= SLICE && Slice(k) == s then Shorts(m, s)[|k| := v] else Shorts(m, s)
  {
    KeyOfSlice(k, s);
    forall i: nat | i <= SLICE ensures Head(s)[..i] == k ==> i == |k| { }
  }

  lemma RestsUpdate(m: map<Key, Value>, k: Key, v: Value, s: nat)
    requires IsSlice(s)
    ensures Rests(m[k := v], s) ==
      if |k| > SLICE && Slice(k) == s then Rests(m, s)[k[SLICE..] := v] else Rests(m, s)
  {
    var m', rhs := m[k := v], if |k| > SLICE && Slice(k) == s then Rests(m, s)[k[SLICE..] := v] else Rests(m, s);
    forall r ensures r in Rests(m', s) <==> r in rhs
      ensures r in rhs ==> Rests(m', s)[r] == rhs[r]
    {
      RestIn(m, s, r);
      RestIn(m', s, r);
      RestOf(k, s, r);
    }
  }

  /** The one key of slice `s` that has `r` left behind the slice. */
  lemma RestOf(k: Key, s: nat, r: Key)
    requires IsSlice(s)
    ensures r != [] && Head(s) + r == k <==> |k| > SLICE && Slice(k) == s && k[SLICE..] == r
  {
    KeyOfSlice(k, s);
    if |k| > SLICE { assert k == k[..SLICE] + k[SLICE..]; }
    if Head(s) + r == k { assert k[..SLICE] == Head(s) && k[SLICE..] == r; }
  }

  lemma SlicesUpdate(m: map<Key, Value>, k: Key, v: Value)
    ensures Slices(m[k := v]) == Slices(m) + {Slice(k)}
    ensures forall s <- Slices(m) :: IsSlice(s)
    ensures IsSlice(Slice(k))
  {
    forall k' ensures IsSlice(Slice(k')) { SliceHead(k'); }
    var m' := m[k := v];
    forall s | s in Slices(m) + {Slice(k)} ensures s in Slices(m') {
      if s in Slices(m) {
        var k' :| k' in m && Slice(k') == s;
        assert k' in m';
      } else {
        assert k in m';
      }
    }
  }

  /** A slice that no key has leaves nothing to hold. */
  lemma NoSlice(m: map<Key, Value>, s: nat)
    requires IsSlice(s) && s !in Slices(m)
    ensures Shorts(m, s) == map[] && Rests(m, s) == map[]
  {
    forall r ensures r !in Rests(m, s) {
      RestIn(m, s, r);
      KeyOfSlice(Head(s) + r, s);
      assert (Head(s) + r)[..SLICE] == Head(s);
    }
  }

  // ---- put keeps the form ----

  lemma SetValueCanon(b: Border, m: map<Key, Value>, k: Key, v: Value, s: nat)
    requires s == Slice(k) && CanonBorder(b, m, s) && (|k| > SLICE ==> b.tail.NoTail?)
    ensures CanonBorder(SetValue(b, k, v), m[k := v], s)
  {
    SliceHead(k);
    ShortsUpdate(m, k, v, s);
    RestsUpdate(m, k, v, s);
  }

  lemma EmptyCanon(s: nat)
    ensures CanonBorder(EmptyBorder, map[], s) && Canon(EmptyLayer, map[])
  {
  }

  /** A border that another slice's key does not touch. */
  lemma OtherBorder(b: Border, m: map<Key, Value>, k: Key, v: Value, s: nat)
    requires CanonBorder(b, m, s) && s != Slice(k) && IsSlice(s)
    ensures CanonBorder(b, m[k := v], s)
  {
    ShortsUpdate(m, k, v, s);
    RestsUpdate(m, k, v, s);
  }

  /** The border node of `k`'s slice changes as `b` says, the others stay. */
  lemma ReplaceBorder(index: Layer, m: map<Key, Value>, k: Key, v: Value, s: nat, b: Border)
    requires Canon(index, m) && s == Slice(k) && CanonBorder(b, m[k := v], s)
    ensures Canon(Layer(index.nodes[s := b]), m[k := v])
  {
    SlicesUpdate(m, k, v);
    var index' := Layer(index.nodes[s := b]);
    forall t | t in index'.nodes ensures CanonBorder(index'.nodes[t], m[k := v], t) {
      if t != s { OtherBorder(index.nodes[t], m, k, v, t); }
    }
  }

  /** A key with a new slice gets a border node of its own. */
  lemma NewSlice(index: Layer, m: map<Key, Value>, k: Key, v: Value, s: nat)
    requires Canon(index, m) && s == Slice(k) && s !in index.nodes
    ensures CanonBorder(SetValue(EmptyBorder, k, v), m[k := v], s)
    ensures Canon(Layer(index.nodes[s := SetValue(EmptyBorder, k, v)]), m[k := v])
  {
    SliceHead(k);
    NoSlice(m, s);
    SetValueCanon(EmptyBorder, m, k, v, s);
    ReplaceBorder(index, m, k, v, s, SetValue(EmptyBorder, k, v));
  }

  /** A key longer than its slice adds its rest to the border node, and nothing else. */
  lemma LongKey(m: map<Key, Value>, k: Key, v: Value)
    requires |k| > SLICE
    ensures Shorts(m[k := v], Slice(k)) == Shorts(m, Slice(k))
    ensures Rests(m[k := v], Slice(k)) == Rests(m, Slice(k))[k[SLICE..] := v]
  {
    SliceHead(k);
    ShortsUpdate(m, k, v, Slice(k));
    RestsUpdate(m, k, v, Slice(k));
  }

  /** What two longer keys of one slice leave to the further layer. */
  lemma TwoRests(k1: Key, k2: Key, v1: Value, v2: Value, s: nat)
    requires Slice(k1) == Slice(k2) == s && |k1| > SLICE && |k2| > SLICE && k1[SLICE..] != k2[SLICE..]
    ensures Shorts(map[k1 := v1][k2 := v2], s) == map[]
    ensures Rests(map[k1 := v1][k2 := v2], s) == map[k1[SLICE..] := v1][k2[SLICE..] := v2]
    ensures |Rests(map[k1 := v1][k2 := v2], s)| >= 2
  {
    var none: map<Key, Value> := map[];
    var one := none[k1 := v1];
    EmptyHolds(s);
    LongKey(none, k1, v1);
    LongKey(one, k2, v2);
    assert one == map[k1 := v1];
    var rest1 := none[k1[SLICE..] := v1];
    assert rest1 == map[k1[SLICE..] := v1];
    TwoKeys(Rests(one[k2 := v2], s), k1[SLICE..], k2[SLICE..]);
  }

  /** Two keys that share a slice and go on in a further layer. */
  lemma LinkBorder(k1: Key, k2: Key, v1: Value, v2: Value, s: nat, sub: Layer)
    requires Slice(k1) == Slice(k2) == s && |k1| > SLICE && |k2| > SLICE && k1[SLICE..] != k2[SLICE..]
    requires Canon(sub, map[k1[SLICE..] := v1][k2[SLICE..] := v2])
    ensures CanonBorder(Border(map[], Link(sub)), map[k1 := v1][k2 := v2], s)
  {
    TwoRests(k1, k2, v1, v2, s);
    LinkIsCanon(map[k1 := v1][k2 := v2], s, sub, map[k1[SLICE..] := v1][k2[SLICE..] := v2]);
  }

  lemma EmptyHolds(s: nat)
    ensures Shorts(map[], s) == map[] && Rests(map[], s) == map[]
  {
    EmptyCanon(s);
    assert CanonTail(NoTail, Rests(map[], s));
  }

  lemma LinkIsCanon(m: map<Key, Value>, s: nat, sub: Layer, rests: map<Key, Value>)
    requires Shorts(m, s) == map[] && Rests(m, s) == rests && |rests| >= 2 && Canon(sub, rests)
    ensures CanonBorder(Border(map[], Link(sub)), m, s)
  {
  }

  lemma SameRest(k1: Key, k2: Key)
    requires Slice(k1) == Slice(k2) && |k1| > SLICE && |k2| > SLICE && k1 != k2
    ensures k1[SLICE..] != k2[SLICE..]
  {
    SliceHead(k1);
    SliceHead(k2);
    assert k1 == k1[..SLICE] + k1[SLICE..] && k2 == k2[..SLICE] + k2[SLICE..];
  }

  lemma FirstKey(k: Key, v: Value, s: nat)
    requires s == Slice(k)
    ensures Canon(Layer(map[s := SetValue(EmptyBorder, k, v)]), map[k := v])
  {
    EmptyCanon(s);
    NewSlice(EmptyLayer, map[], k, v, s);
    var none: map<Key, Value> := map[];
    assert none[k := v] == map[k := v];
    assert EmptyLayer.nodes[s := SetValue(EmptyBorder, k, v)] == map[s := SetValue(EmptyBorder, k, v)];
  }

  /** The second key joins the border node of the first. */
  lemma SecondKey(k1: Key, k2: Key, v1: Value, v2: Value, s: nat, b: Border)
    requires s == Slice(k1) == Slice(k2) && CanonBorder(b, map[k1 := v1][k2 := v2], s)
    ensures Canon(Layer(Layer(map[s := SetValue(EmptyBorder, k1, v1)]).nodes[s := b]), map[k1 := v1][k2 := v2])
  {
    FirstKey(k1, v1, s);
    ReplaceBorder(Layer(map[s := SetValue(EmptyBorder, k1, v1)]), map[k1 := v1], k2, v2, s, b);
  }

  lemma PairApart(k1: Key, k2: Key, v1: Value, v2: Value)
    requires Slice(k1) != Slice(k2)
    ensures Canon(CreatePair(k1, k2, v1, v2), map[k1 := v1][k2 := v2])
  {
    FirstKey(k1, v1, Slice(k1));
    NewSlice(Layer(map[Slice(k1) := SetValue(EmptyBorder, k1, v1)]), map[k1 := v1], k2, v2, Slice(k2));
    PairIsApart(k1, k2, v1, v2);
  }

  lemma PairShort(k1: Key, k2: Key, v1: Value, v2: Value)
    requires Slice(k1) == Slice(k2) && (|k1| <= SLICE || |k2| <= SLICE)
    ensures Canon(CreatePair(k1, k2, v1, v2), map[k1 := v1][k2 := v2])
  {
    var s, b1 := Slice(k1), SetValue(EmptyBorder, k1, v1);
    FirstKey(k1, v1, s);
    assert CanonBorder(Layer(map[s := b1]).nodes[s], map[k1 := v1], s);
    SetValueCanon(b1, map[k1 := v1], k2, v2, s);
    SecondKey(k1, k2, v1, v2, s, SetValue(b1, k2, v2));
    PairIsShort(k1, k2, v1, v2);
  }

  /** `create_pair` makes the trie of two keys, however long their common prefix. */
  lemma {:induction false} CreatePairCanon(k1: Key, k2: Key, v1: Value, v2: Value)
    requires k1 != k2
    ensures Canon(CreatePair(k1, k2, v1, v2), map[k1 := v1][k2 := v2])
    decreases |k1|
  {
    if Slice(k1) != Slice(k2) {
      PairApart(k1, k2, v1, v2);
    } else if |k1| <= SLICE || |k2| <= SLICE {
      PairShort(k1, k2, v1, v2);
    } else {
      SameRest(k1, k2);
      var sub := CreatePair(k1[SLICE..], k2[SLICE..], v1, v2);
      CreatePairCanon(k1[SLICE..], k2[SLICE..], v1, v2);
      LinkBorder(k1, k2, v1, v2, Slice(k1), sub);
      SecondKey(k1, k2, v1, v2, Slice(k1), Border(map[], Link(sub)));
      PairIsLinked(k1, k2, v1, v2);
    }
  }

  lemma PairIsApart(k1: Key, k2: Key, v1: Value, v2: Value)
    requires Slice(k1) != Slice(k2)
    ensures CreatePair(k1, k2, v1, v2) == Layer(Layer(
      map[Slice(k1) := SetValue(EmptyBorder, k1, v1)]).nodes[Slice(k2) := SetValue(EmptyBorder, k2, v2)])
  {
  }

  lemma PairIsShort(k1: Key, k2: Key, v1: Value, v2: Value)
    requires Slice(k1) == Slice(k2) && (|k1| <= SLICE || |k2| <= SLICE)
    ensures CreatePair(k1, k2, v1, v2) == Layer(Layer(
      map[Slice(k1) := SetValue(EmptyBorder, k1, v1)]).nodes[
        Slice(k1) := SetValue(SetValue(EmptyBorder, k1, v1), k2, v2)])
  {
  }

  lemma PairIsLinked(k1: Key, k2: Key, v1: Value, v2: Value)
    requires Slice(k1) == Slice(k2) && |k1| > SLICE && |k2| > SLICE
    ensures CreatePair(k1, k2, v1, v2) == Layer(Layer(
      map[Slice(k1) := SetValue(EmptyBorder, k1, v1)]).nodes[
        Slice(k1) := Border(map[], Link(CreatePair(k1[SLICE..], k2[SLICE..], v1, v2)))])
  {
  }

  lemma TwoKeys(m: map<Key, Value>, r1: Key, r2: Key)
    requires r1 in m && r2 in m && r1 != r2
    ensures |m| >= 2
  {
    var rest := m.Keys - {r1, r2};
    assert m.Keys == {r1, r2} + rest;
    assert |m.Keys| == |{r1, r2}| + |rest|;
  }

  lemma UpdateGrows(m: map<Key, Value>, r: Key, v: Value)
    ensures |m[r := v]| >= |m|
  {
    assert m[r := v].Keys == m.Keys + {r};
    assert m.Keys + {r} == m.Keys + ({r} - m.Keys);
  }

  lemma {:induction false} PutTailCanon(rest: Key, v: Value, tail: Tail, m: map<Key, Value>)
    requires CanonTail(tail, m)
    ensures CanonTail(PutTail(rest, v, tail), m[rest := v])
    decreases |rest|, 1
  {
    match tail {
      case NoTail =>
      case Suffix(r, w) =>
        if r != rest {
          CreatePairCanon(rest, r, v, w);
          assert m[rest := v] == map[rest := v][r := w];
          TwoKeys(m[rest := v], rest, r);
        }
      case Link(sub) =>
        PutCanon(rest, v, sub, m);
        UpdateGrows(m, rest, v);
    }
  }

  lemma PutBorderCanon(key: Key, v: Value, b: Border, m: map<Key, Value>, s: nat, tail: Tail)
    requires s == Slice(key) && CanonBorder(b, m, s)
    requires |key| > SLICE ==> CanonTail(tail, Rests(m, s)[key[SLICE..] := v])
    ensures |key| <= SLICE ==> CanonBorder(b.(prefix := b.prefix[|key| := v]), m[key := v], s)
    ensures |key| > SLICE ==> CanonBorder(b.(tail := tail), m[key := v], s)
  {
    SliceHead(key);
    ShortsUpdate(m, key, v, s);
    RestsUpdate(m, key, v, s);
  }

  /** `put` takes the trie of a map to the trie of the updated map. */
  lemma {:induction false} PutCanon(key: Key, v: Value, index: Layer, m: map<Key, Value>)
    requires Canon(index, m)
    ensures Canon(Put(key, v, index), m[key := v])
    decreases |key|, 0
  {
    var s := Slice(key);
    if s !in index.nodes {
      NewSlice(index, m, key, v, s);
    } else {
      var b := index.nodes[s];
      assert CanonBorder(b, m, s);
      if |key| > SLICE {
        var tail := PutTail(key[SLICE..], v, b.tail);
        PutTailCanon(key[SLICE..], v, b.tail, Rests(m, s));
        PutBorderCanon(key, v, b, m, s, tail);
        ReplaceBorder(index, m, key, v, s, b.(tail := tail));
      } else {
        PutBorderCanon(key, v, b, m, s, NoTail);
        ReplaceBorder(index, m, key, v, s, b.(prefix := b.prefix[|key| := v]));
      }
    }
  }

  // ---- what follows ----

  function At(m: map<Key, Value>, key: Key): Value {
    if key in m then m[key] else NULL
  }

  lemma {:induction false} LookupCanon(key: Key, index: Layer, m: map<Key, Value>)
    requires Canon(index, m)
    ensures Lookup(key, index) == At(m, key)
    decreases |key|
  {
    var s := Slice(key);
    SliceHead(key);
    KeyOfSlice(key, s);
    if s in index.nodes {
      assert CanonBorder(index.nodes[s], m, s);
      if |key| > SLICE {
        var rest := key[SLICE..];
        assert key == Head(s) + rest;
        RestIn(m, s, rest);
        assert CanonTail(index.nodes[s].tail, Rests(m, s));
        if index.nodes[s].tail.Link? { LookupCanon(rest, index.nodes[s].tail.layer, Rests(m, s)); }
      }
    } else {
      assert s !in Slices(m);
    }
  }

  /** `put` refines map update: a lookup after it gives the new value for the key that
      was put and the old answer for every other byte string. */
  lemma PutThenLookup(key: Key, v: Value, index: Layer, m: map<Key, Value>, other: Key)
    requires Canon(index, m)
    ensures Lookup(other, Put(key, v, index)) == if other == key then v else Lookup(other, index)
  {
    PutCanon(key, v, index, m);
    LookupCanon(other, Put(key, v, index), m[key := v]);
    LookupCanon(other, index, m);
  }

  /** A map has one trie. */
  lemma {:induction false} CanonUnique(a: Layer, b: Layer, m: map<Key, Value>)
    requires Canon(a, m) && Canon(b, m)
    ensures a == b
  {
    forall s | s in a.nodes ensures a.nodes[s] == b.nodes[s] {
      var r := Rests(m, s);
      assert CanonBorder(a.nodes[s], m, s) && CanonBorder(b.nodes[s], m, s);
      TailSize(a.nodes[s].tail, r);
      TailSize(b.nodes[s].tail, r);
      if a.nodes[s].tail.Link? { CanonUnique(a.nodes[s].tail.layer, b.nodes[s].tail.layer, r); }
      if a.nodes[s].tail.Suffix? {
        assert a.nodes[s].tail.rest in r && b.nodes[s].tail.rest in r;
      }
    }
    assert a.nodes == b.nodes;
  }

  lemma TailSize(tail: Tail, m: map<Key, Value>)
    requires CanonTail(tail, m)
    ensures |m| == 0 <==> tail.NoTail?
    ensures |m| == 1 <==> tail.Suffix?
  {
  }

  /** Key `k` shares slice `s` and goes on behind it. */
  predicate LongAt(k: Key, s: nat) {
    |k| > SLICE && Slice(k) == s
  }

  lemma ShortHeld(index: Layer, m: map<Key, Value>, s: nat, k: Key)
    requires Canon(index, m) && s in index.nodes && |k| <= SLICE && Slice(k) == s
    ensures |k| in index.nodes[s].prefix <==> k in m
    ensures k in m ==> index.nodes[s].prefix[|k|] == m[k]
  {
    SliceHead(k);
    KeyOfSlice(k, s);
    assert CanonBorder(index.nodes[s], m, s);
  }

  lemma LongHeld(m: map<Key, Value>, s: nat, k: Key)
    requires IsSlice(s) && LongAt(k, s)
    ensures k in m <==> k[SLICE..] in Rests(m, s)
    ensures k in m ==> Rests(m, s)[k[SLICE..]] == m[k]
    ensures k == Head(s) + k[SLICE..]
  {
    RestOf(k, s, k[SLICE..]);
    RestIn(m, s, k[SLICE..]);
  }

  lemma JoinedKey(s: nat, r: Key)
    requires IsSlice(s) && r != []
    ensures LongAt(Head(s) + r, s) && (Head(s) + r)[SLICE..] == r
  {
    RestOf(Head(s) + r, s, r);
  }

  lemma TailIs(index: Layer, m: map<Key, Value>, s: nat)
    requires Canon(index, m) && s in index.nodes
    ensures match index.nodes[s].tail
      case NoTail => Rests(m, s) == map[]
      case Suffix(r, v) => Rests(m, s) == map[r := v]
      case Link(_) => |Rests(m, s)| >= 2
  {
    var b := index.nodes[s];
    assert CanonBorder(b, m, s);
    TailSize(b.tail, Rests(m, s));
  }

  /** Without a tail there is no key that goes on behind the slice, with a suffix exactly
      one. */
  lemma LongKeyHeld(index: Layer, m: map<Key, Value>, s: nat, k: Key)
    requires Canon(index, m) && s in index.nodes && IsSlice(s) && LongAt(k, s)
    ensures index.nodes[s].tail.NoTail? ==> k !in m
    ensures index.nodes[s].tail.Suffix? ==> (k in m <==> k[SLICE..] == index.nodes[s].tail.rest)
  {
    TailIs(index, m, s);
    LongHeld(m, s, k);
  }

  /** A further layer is there for two such keys or more. */
  lemma LinkHasTwo(index: Layer, m: map<Key, Value>, s: nat) returns (k: Key, k': Key)
    requires Canon(index, m) && s in index.nodes && IsSlice(s) && index.nodes[s].tail.Link?
    ensures k != k' && k in m && k' in m && LongAt(k, s) && LongAt(k', s)
  {
    TailIs(index, m, s);
    var r, r' := TwoOf(Rests(m, s));
    RestIn(m, s, r);
    RestIn(m, s, r');
    JoinedKey(s, r);
    JoinedKey(s, r');
    k, k' := Head(s) + r, Head(s) + r';
  }

  lemma TwoOf(m: map<Key, Value>) returns (a: Key, b: Key)
    requires |m| >= 2
    ensures a in m && b in m && a != b
  {
    var keys := m.Keys;
    a :| a in keys;
    assert |keys - {a}| >= 1;
    b :| b in keys - {a};
  }

  function PutAll(puts: seq<(Key, Value)>): Layer {
    if puts == [] then EmptyLayer
    else var n := |puts| - 1; Put(puts[n].0, puts[n].1, PutAll(puts[..n]))
  }

  function MapOf(puts: seq<(Key, Value)>): map<Key, Value> {
    if puts == [] then map[]
    else var n := |puts| - 1; MapOf(puts[..n])[puts[n].0 := puts[n].1]
  }

  lemma {:induction false} PutAllCanon(puts: seq<(Key, Value)>)
    ensures Canon(PutAll(puts), MapOf(puts))
  {
    if puts == [] {
      EmptyCanon(0);
    } else {
      var n := |puts| - 1;
      PutAllCanon(puts[..n]);
      PutCanon(puts[n].0, puts[n].1, PutAll(puts[..n]), MapOf(puts[..n]));
    }
  }

  /** After any sequence of puts a lookup answers as the map does. */
  lemma PutsThenLookup(puts: seq<(Key, Value)>, key: Key)
    ensures Lookup(key, PutAll(puts)) == At(MapOf(puts), key)
  {
    PutAllCanon(puts);
    LookupCanon(key, PutAll(puts), MapOf(puts));
  }

  /** The trie depends only on the final map, not on the order or the number of puts. */
  lemma ShapeIsCanonical(puts: seq<(Key, Value)>, puts': seq<(Key, Value)>)
    ensures PutAll(puts) == PutAll(puts') <==> MapOf(puts) == MapOf(puts')
  {
    PutAllCanon(puts);
    PutAllCanon(puts');
    if MapOf(puts) == MapOf(puts') {
      CanonUnique(PutAll(puts), PutAll(puts'), MapOf(puts));
    } else if PutAll(puts) == PutAll(puts') {
      CanonInjective(PutAll(puts), MapOf(puts), MapOf(puts'));
    }
  }

  /** A trie stands for one map, also where values are NULL. */
  lemma {:induction false} CanonInjective(index: Layer, m: map<Key, Value>, m': map<Key, Value>)
    requires Canon(index, m) && Canon(index, m')
    ensures m == m'
  {
    forall k ensures (k in m ==> k in m' && m'[k] == m[k]) && (k in m' ==> k in m) {
      if k in m { CanonInjectiveAt(k, index, m, m'); }
      if k in m' { CanonInjectiveAt(k, index, m', m); }
    }
  }

  lemma {:induction false} CanonInjectiveAt(k: Key, index: Layer, m: map<Key, Value>, m': map<Key, Value>)
    requires Canon(index, m) && Canon(index, m') && k in m
    ensures k in m' && m'[k] == m[k]
    decreases |k|
  {
    var s := Slice(k);
    SliceHead(k);
    KeyOfSlice(k, s);
    assert s in Slices(m) && CanonBorder(index.nodes[s], m, s) && CanonBorder(index.nodes[s], m', s);
    if |k| <= SLICE {
      assert |k| in Shorts(m, s);
    } else {
      var rest := k[SLICE..];
      assert k == Head(s) + rest;
      RestIn(m, s, rest);
      RestIn(m', s, rest);
      assert CanonTail(index.nodes[s].tail, Rests(m, s)) && CanonTail(index.nodes[s].tail, Rests(m', s));
      if index.nodes[s].tail.Link? {
        CanonInjectiveAt(rest, index.nodes[s].tail.layer, Rests(m, s), Rests(m', s));
      }
    }
  }

  lemma PutTwice(k1: Key, v1: Value, k2: Key, v2: Value, index: Layer, m: map<Key, Value>)
    requires Canon(index, m)
    ensures Canon(Put(k2, v2, Put(k1, v1, index)), m[k1 := v1][k2 := v2])
  {
    PutCanon(k1, v1, index, m);
    PutCanon(k2, v2, Put(k1, v1, index), m[k1 := v1]);
  }

  /** Puts of different keys commute, in any trie that puts can build. */
  lemma PutsCommute(k1: Key, v1: Value, k2: Key, v2: Value, index: Layer, m: map<Key, Value>)
    requires k1 != k2 && Canon(index, m)
    ensures Put(k1, v1, Put(k2, v2, index)) == Put(k2, v2, Put(k1, v1, index))
  {
    PutTwice(k1, v1, k2, v2, index, m);
    PutTwice(k2, v2, k1, v1, index, m);
    UpdatesCommute(k1, v1, k2, v2, m);
    CanonUnique(Put(k1, v1, Put(k2, v2, index)), Put(k2, v2, Put(k1, v1, index)), m[k1 := v1][k2 := v2]);
  }

  lemma UpdatesCommute(k1: Key, v1: Value, k2: Key, v2: Value, m: map<Key, Value>)
    requires k1 != k2
    ensures m[k1 := v1][k2 := v2] == m[k2 := v2][k1 := v1]
  {
  }
}
