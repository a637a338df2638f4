/**
 * Firestore documents as the app sees them: a document is a map from field name to a
 * value, and `updateDoc` applies one field operation per named field on the server
 * (`arrayUnion`, `arrayRemove`, `increment`, or a plain value). JavaScript's `||` on a
 * field read is modelled by `Truthy` and `Or`.
 */
module Documents {
  import opened Wrappers

  datatype Value =
    | Null
    | Bool(b: bool)
    | Int(i: int)
    | Str(s: string)
    | Time(t: int)          // a server or client timestamp
    | Arr(elems: seq<Value>)

  type Doc = map<string, Value>

  function Lookup(d: Doc, field: string): Option<Value> {
    if field in d then Some(d[field]) else None
  }

  /** JavaScript truthiness of a field read; a missing field reads as `undefined`. */
  predicate Truthy(v: Option<Value>) {
    match v
    case None => false
    case Some(x) => !(x == Null || x == Bool(false) || x == Int(0) || x == Str(""))
  }

  /** `d.field || fallback`. */
  function Or(v: Option<Value>, fallback: Value): (r: Value)
    ensures Truthy(v) ==> r == v.value
    ensures !Truthy(v) ==> r == fallback
  {
    if Truthy(v) then v.value else fallback
  }

  /** A field that holds a string; any other value, or none, reads as `None`. */
  function StrField(d: Doc, field: string): (r: Option<string>)
    ensures r.Some? <==> field in d && d[field].Str?
    ensures r.Some? ==> d[field] == Str(r.value)
  {
    if field in d && d[field].Str? then Some(d[field].s) else None
  }

  /** `{id, ...data}`: the document's fields with its id in front; a stored `id` field wins. */
  function WithId(id: string, data: Doc): (r: Doc)
    ensures r.Keys == data.Keys + {"id"}
    ensures forall f :: f in data ==> r[f] == data[f]
    ensures "id" !in data ==> r["id"] == Str(id)
  {
    map["id" := Str(id)] + data
  }

  /** `d.field || []` for a field that holds an array. */
  function ArrayField(d: Doc, field: string): seq<Value> {
    if field in d && d[field].Arr? then d[field].elems else []
  }

  /** The number a counter field holds; `increment` treats a missing or non-numeric field as 0. */
  function Counter(d: Doc, field: string): int {
    if field in d && d[field].Int? then d[field].i else 0
  }

  predicate Distinct(xs: seq<Value>) {
    forall i, j :: 0 <= i < j < |xs| ==> xs[i] != xs[j]
  }

  /** `xs` with every occurrence of `x` removed, order kept. */
  function Without(xs: seq<Value>, x: Value): (r: seq<Value>)
    ensures |r| <= |xs|
    ensures forall y :: y in r <==> y in xs && y != x
  {
    if xs == [] then []
    else if xs[0] == x then Without(xs[1..], x)
    else [xs[0]] + Without(xs[1..], x)
  }

  /** A field operation of `updateDoc`. */
  datatype FieldOp =
    | Put(v: Value)
    | ArrayUnion(x: Value)
    | ArrayRemove(x: Value)
    | Increment(n: int)

  type Writes = map<string, FieldOp>

  /** The new value of a field whose current value is `cur`: `arrayUnion` appends only an
      absent element, `arrayRemove` drops every occurrence, and both start from an empty
      array when the field is not an array; `increment` starts from 0 when the field is
      not a number. */
  function ApplyOp(cur: Option<Value>, op: FieldOp): Value {
    var xs := if cur.Some? && cur.value.Arr? then cur.value.elems else [];
    match op
    case Put(v) => v
    case ArrayUnion(x) => Arr(if x in xs then xs else xs + [x])
    case ArrayRemove(x) => Arr(Without(xs, x))
    case Increment(n) => Int(if cur.Some? && cur.value.Int? then cur.value.i + n else n)
  }

  /** The document after `updateDoc(ref, writes)`: the named fields are rewritten, every
      other field is kept. */
  function ApplyWrites(d: Doc, w: Writes): (r: Doc)
    ensures r.Keys == d.Keys + w.Keys
    ensures forall f :: f in w ==> r[f] == ApplyOp(Lookup(d, f), w[f])
    ensures forall f :: f in d && f !in w ==> r[f] == d[f]
  {
    map f | f in d.Keys + w.Keys :: if f in w then ApplyOp(Lookup(d, f), w[f]) else d[f]
  }

  /** A plain object of values, as writes. */
  function Puts(fields: Doc): (w: Writes)
    ensures w.Keys == fields.Keys
  {
    map f | f in fields :: Put(fields[f])
  }

  /** Writing plain values is overwriting those keys: the merge of the two objects. */
  lemma PutsMerge(d: Doc, fields: Doc)
    ensures ApplyWrites(d, Puts(fields)) == d + fields
  {
  }

  /** Read back after `arrayUnion(x)`: `x` is present and nothing else changed membership. */
  lemma UnionMembers(cur: Option<Value>, x: Value, y: Value)
    ensures ApplyOp(cur, ArrayUnion(x)).Arr?
    ensures y in ApplyOp(cur, ArrayUnion(x)).elems <==>
      y == x || (cur.Some? && cur.value.Arr? && y in cur.value.elems)
  {
  }

  /** Read back after `arrayRemove(x)`: `x` is gone and nothing else changed membership. */
  lemma RemoveMembers(cur: Option<Value>, x: Value, y: Value)
    ensures ApplyOp(cur, ArrayRemove(x)).Arr?
    ensures y in ApplyOp(cur, ArrayRemove(x)).elems <==>
      y != x && cur.Some? && cur.value.Arr? && y in cur.value.elems
  {
  }

  /** Removing an element that occurs once from a duplicate-free array shortens it by one
      and keeps it duplicate-free; removing an absent one changes nothing. */
  lemma {:induction false} WithoutDistinct(xs: seq<Value>, x: Value)
    requires Distinct(xs)
    ensures Distinct(Without(xs, x))
    ensures x in xs ==> |Without(xs, x)| == |xs| - 1
    ensures x !in xs ==> Without(xs, x) == xs
  {
    if xs != [] {
      var tail := xs[1..];
      assert Distinct(tail);
      WithoutDistinct(tail, x);
      assert xs == [xs[0]] + tail;
      if xs[0] == x {
        assert x !in tail;
      } else {
        var r := Without(tail, x);
        assert xs[0] !in r by { assert xs[0] !in tail; }
        assert Without(xs, x) == [xs[0]] + r;
        forall i, j | 0 <= i < j < |[xs[0]] + r| ensures ([xs[0]] + r)[i] != ([xs[0]] + r)[j] {
          if i == 0 { assert ([xs[0]] + r)[j] == r[j - 1]; }
        }
      }
    }
  }

  /** What removal takes out of a duplicate-free array is exactly one copy of the element. */
  lemma {:induction false} WithoutMultiset(xs: seq<Value>, x: Value)
    requires Distinct(xs) && x in xs
    ensures multiset(Without(xs, x)) + multiset{x} == multiset(xs)
  {
    var tail := xs[1..];
    assert xs == [xs[0]] + tail;
    assert Distinct(tail);
    if xs[0] == x {
      assert x !in tail;
      WithoutDistinct(tail, x);
    } else {
      WithoutMultiset(tail, x);
      assert Without(xs, x) == [xs[0]] + Without(tail, x);
    }
  }

  /** Appending an absent element keeps an array duplicate-free. */
  lemma AppendDistinct(xs: seq<Value>, x: Value)
    requires Distinct(xs) && x !in xs
    ensures Distinct(xs + [x])
  {
  }

  /** Removing an element that was just appended to an array lacking it gives the array back. */
  lemma {:induction false} WithoutAppended(xs: seq<Value>, x: Value)
    requires x !in xs
    ensures Without(xs + [x], x) == xs
  {
    if xs != [] {
      assert (xs + [x])[1..] == xs[1..] + [x];
      WithoutAppended(xs[1..], x);
      assert xs == [xs[0]] + xs[1..];
    } else {
      assert [] + [x] == [x];
    }
  }
}
