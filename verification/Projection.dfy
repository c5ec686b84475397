/** Attribute lists, the offsets of attributes in them, and the keys that tuples are
    indexed by. */
module Projection {
  import opened NestedIndex

  datatype Domain = IntDomain | StrDomain
  datatype Attr = Attr(id: string, domain: Domain)
  type Row = seq<Field>

  predicate InDomain(d: Domain, f: Field) {
    match d case IntDomain => f.Num? case StrDomain => f.Text?
  }

  predicate RowFits(attrs: seq<Attr>, t: Row) {
    |t| == |attrs| && forall i :: 0 <= i < |attrs| ==> InDomain(attrs[i].domain, t[i])
  }

  /** Attribute `j` is the first of that name. */
  predicate FirstNamed(attrs: seq<Attr>, j: nat, id: string) {
    j < |attrs| && attrs[j].id == id && forall k :: 0 <= k < j ==> attrs[k].id != id
  }

  /** `At(i)`, -1 for an attribute that is not there, and the exit of the program when the
      list is empty or has the name in another domain. */
  datatype Offset = At(i: nat) | Absent | Exit

  function OffsetOf(attrs: seq<Attr>, a: Attr): Offset {
    if attrs == [] then Exit else OffsetFrom(attrs, 0, a)
  }

  function OffsetFrom(attrs: seq<Attr>, i: nat, a: Attr): (r: Offset)
    requires i <= |attrs|
    ensures r.At? ==> i <= r.i < |attrs| && attrs[r.i] == a && forall j :: i <= j < r.i ==> attrs[j].id != a.id
    ensures r.Absent? <==> forall j :: i <= j < |attrs| ==> attrs[j].id != a.id
    decreases |attrs| - i
  {
    if i == |attrs| then Absent
    else if attrs[i].id == a.id then if attrs[i].domain == a.domain then At(i) else Exit
    else OffsetFrom(attrs, i + 1, a)
  }

  lemma {:induction false} OffsetFromIs(attrs: seq<Attr>, i: nat, a: Attr, j: nat)
    requires i <= j && FirstNamed(attrs, j, a.id)
    ensures OffsetFrom(attrs, i, a) == if attrs[j].domain == a.domain then At(j) else Exit
    decreases j - i
  {
    if i < j { OffsetFromIs(attrs, i + 1, a, j); }
  }

  /** The first attribute of the name decides: its offset if the domains agree, the end of
      the program if not. With no attribute of the name the answer is -1, but for an empty
      list, which ends the program too. */
  lemma OffsetIs(attrs: seq<Attr>, a: Attr)
    ensures forall j: nat | FirstNamed(attrs, j, a.id) ::
      OffsetOf(attrs, a) == if attrs[j].domain == a.domain then At(j) else Exit
    ensures (forall j :: 0 <= j < |attrs| ==> attrs[j].id != a.id) ==>
      OffsetOf(attrs, a) == if attrs == [] then Exit else Absent
  {
    forall j: nat | FirstNamed(attrs, j, a.id)
      ensures OffsetOf(attrs, a) == if attrs[j].domain == a.domain then At(j) else Exit
    {
      OffsetFromIs(attrs, 0, a, j);
    }
  }

  /** `get_offset` */
  method GetOffset(attrs: seq<Attr>, a: Attr) returns (r: Offset)
    ensures r == OffsetOf(attrs, a)
  {
    if attrs == [] { return Exit; }
    var i := 0;
    while i < |attrs|
      invariant i <= |attrs| && OffsetOf(attrs, a) == OffsetFrom(attrs, i, a)
    {
      if attrs[i].id == a.id {
        return if attrs[i].domain == a.domain then At(i) else Exit;
      }
      i := i + 1;
    }
    return Absent;
  }

  /** The attributes to project on all occur: what `get_projection` relies on. */
  predicate Within(attrs: seq<Attr>, proj: seq<Attr>) {
    forall j :: 0 <= j < |proj| ==> OffsetOf(attrs, proj[j]).At?
  }

  function DomainSchema(d: Domain): Schema {
    match d case IntDomain => Int case StrDomain => Str
  }

  /** `get_schema`, for a nonempty list. */
  function SchemaOf(attrs: seq<Attr>): Schema
    requires attrs != []
  {
    var s := DomainSchema(attrs[0].domain);
    if |attrs| == 1 then s else Tuple(s, SchemaOf(attrs[1..]))
  }

  /** The fields of a key made of `n` components, from the first to the last. */
  function Parts(k: Key, n: nat): seq<Field> {
    match k
    case Single(f) => [f]
    case Pair(a, b) => if a.Single? && n > 1 then [a.f] + Parts(b, n - 1) else []
  }

  /** The values of the attributes in a row, in the order of `proj`. */
  function ValuesOf(attrs: seq<Attr>, t: Row, proj: seq<Attr>): (fs: seq<Field>)
    requires RowFits(attrs, t) && Within(attrs, proj)
    ensures |fs| == |proj| && forall j :: 0 <= j < |proj| ==> fs[j] == ValueOf(attrs, t, proj[j])
  {
    seq(|proj|, j requires 0 <= j < |proj| => ValueOf(attrs, t, proj[j]))
  }

  /** `get_projection`: the key has the fields of the attributes, each at its place. */
  function KeyOf(attrs: seq<Attr>, t: Row, proj: seq<Attr>): (k: Key)
    requires RowFits(attrs, t) && Within(attrs, proj) && proj != []
    ensures Fits(SchemaOf(proj), k)
    ensures Parts(k, |proj|) == ValuesOf(attrs, t, proj)
    decreases |proj|
  {
    var current := Single(t[OffsetOf(attrs, proj[0]).i]);
    if |proj| == 1 then current else Pair(current, KeyOf(attrs, t, proj[1..]))
  }

  /** The value of an attribute in a row: that of the first field of its name. */
  function ValueOf(attrs: seq<Attr>, t: Row, a: Attr): Field
    requires RowFits(attrs, t) && OffsetOf(attrs, a).At?
  {
    t[OffsetOf(attrs, a).i]
  }

  lemma ValueIs(attrs: seq<Attr>, t: Row, a: Attr, j: nat)
    requires RowFits(attrs, t) && OffsetOf(attrs, a).At? && FirstNamed(attrs, j, a.id)
    ensures ValueOf(attrs, t, a) == t[j]
  {
    OffsetFromIs(attrs, 0, a, j);
  }

  /** Two rows, possibly of different relations, have the same key exactly when they agree
      on all the join attributes. */
  lemma {:induction false} SameKey(attrs: seq<Attr>, t: Row, proj: seq<Attr>, attrs': seq<Attr>, t': Row, proj': seq<Attr>)
    requires RowFits(attrs, t) && Within(attrs, proj) && RowFits(attrs', t') && Within(attrs', proj')
    requires |proj| == |proj'| > 0
    ensures KeyOf(attrs, t, proj) == KeyOf(attrs', t', proj') <==>
      forall j :: 0 <= j < |proj| ==> ValueOf(attrs, t, proj[j]) == ValueOf(attrs', t', proj'[j])
    decreases |proj|
  {
    if |proj| > 1 {
      SameKey(attrs, t, proj[1..], attrs', t', proj'[1..]);
      assert forall j :: 1 <= j < |proj| ==> proj[j] == proj[1..][j - 1] && proj'[j] == proj'[1..][j - 1];
    }
  }

  /** With equal domains on both sides, the keys of both relations fit one schema. */
  lemma {:induction false} SameSchema(proj: seq<Attr>, proj': seq<Attr>)
    requires |proj| == |proj'| > 0 && forall j :: 0 <= j < |proj| ==> proj[j].domain == proj'[j].domain
    ensures SchemaOf(proj) == SchemaOf(proj')
    decreases |proj|
  {
    if |proj| > 1 { SameSchema(proj[1..], proj'[1..]); }
  }
}
