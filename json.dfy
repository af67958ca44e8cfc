/**
 * Decoded request bodies. Both the Python dictionary and the PHP array that
 * the endpoint reads its fields from keep their entries in insertion order,
 * and the SQL text the endpoint builds depends on that order, so an object is
 * an ordered association list rather than a `map`.
 */
module Json {

  datatype Option<+T> = None | Some(value: T)

  /** A decoded JSON value (floating-point numbers are not modelled). */
  datatype Value =
    | Null
    | Bool(b: bool)
    | Int(i: int)
    | Str(s: string)
    | Object(members: seq<(string, Value)>)
    | Array(items: seq<Value>)

  /** The members of a JSON object, in insertion order. */
  type Body = seq<(string, Value)>

  function Keys(b: Body): (ks: seq<string>)
    ensures |ks| == |b| && forall i :: 0 <= i < |b| ==> ks[i] == b[i].0
  {
    if b == [] then [] else [b[0].0] + Keys(b[1..])
  }

  function Values(b: Body): (vs: seq<Value>)
    ensures |vs| == |b| && forall i :: 0 <= i < |b| ==> vs[i] == b[i].1
  {
    if b == [] then [] else [b[0].1] + Values(b[1..])
  }

  /** Extending a prefix by one entry extends its keys and values by that entry's. */
  lemma {:induction false} PrefixStep(b: Body, i: nat)
    requires i < |b|
    ensures Keys(b[..i + 1]) == Keys(b[..i]) + [b[i].0]
    ensures Values(b[..i + 1]) == Values(b[..i]) + [b[i].1]
  {
    var ks, vs := Keys(b[..i + 1]), Values(b[..i + 1]);
    var ks', vs' := Keys(b[..i]) + [b[i].0], Values(b[..i]) + [b[i].1];
    forall j | 0 <= j <= i
      ensures ks[j] == ks'[j] && vs[j] == vs'[j]
    {
      assert b[..i + 1][j] == b[j];
      if j < i {
        assert b[..i][j] == b[j];
      }
    }
  }

  /** Appending one element after a concatenation appends it to the second part. */
  lemma SnocAssoc<T>(a: seq<T>, b: seq<T>, x: T)
    ensures a + b + [x] == a + (b + [x])
  {
  }

  /**
   * No key occurs twice. A JSON decoder never produces a repeated key; the
   * handlers are not required to receive such bodies, and where a key does
   * repeat, `Lookup` reads its first entry.
   */
  predicate UniqueKeys(b: Body)
  {
    forall i, j :: 0 <= i < j < |b| ==> b[i].0 != b[j].0
  }

  /** The value stored under `k`, if any (read from the first entry with that key). */
  function Lookup(b: Body, k: string): (r: Option<Value>)
    ensures r.Some? <==> k in Keys(b)
    ensures r.Some? ==> (k, r.value) in b
  {
    if b == [] then None
    else if b[0].0 == k then Some(b[0].1)
    else Lookup(b[1..], k)
  }

  /**
   * Reading a field with a default: Python's `dict.get(k, default)` and
   * Laravel's `$request->input(k, default)` both give the default only when
   * the key is absent; a key present with value null gives null.
   */
  function GetOr(b: Body, k: string, default: Value): (r: Value)
    ensures k !in Keys(b) ==> r == default
    ensures k in Keys(b) ==> (k, r) in b
  {
    match Lookup(b, k)
    case Some(v) => v
    case None => default
  }

  /**
   * Assigning a key: Python's `d[k] = v` and PHP's array replacement both
   * overwrite an existing entry where it stands and append a new one at the
   * end.
   */
  function Put(b: Body, k: string, v: Value): (r: Body)
    ensures Lookup(r, k) == Some(v)
    ensures forall k' :: k' != k ==> Lookup(r, k') == Lookup(b, k')
  {
    if b == [] then [(k, v)]
    else if b[0].0 == k then [(k, v)] + b[1..]
    else [b[0]] + Put(b[1..], k, v)
  }

  /** Assigning a key keeps the existing key order and adds a new key last. */
  lemma {:induction false} PutKeepsKeyOrder(b: Body, k: string, v: Value)
    ensures Keys(Put(b, k, v)) == if k in Keys(b) then Keys(b) else Keys(b) + [k]
  {
    if b != [] && b[0].0 != k {
      var rest := Put(b[1..], k, v);
      PutKeepsKeyOrder(b[1..], k, v);
      assert ([b[0]] + rest)[1..] == rest;
      assert Keys(Put(b, k, v)) == [b[0].0] + Keys(rest);
      assert Keys(b) == [b[0].0] + Keys(b[1..]);
      assert k in Keys(b) <==> k in Keys(b[1..]);
      if k !in Keys(b) {
        SnocAssoc([b[0].0], Keys(b[1..]), k);
      }
    } else if b != [] {
      assert ([(k, v)] + b[1..])[1..] == b[1..];
    }
  }

  /** Assigning a key to a dictionary leaves a dictionary. */
  lemma PutKeepsUniqueKeys(b: Body, k: string, v: Value)
    requires UniqueKeys(b)
    ensures UniqueKeys(Put(b, k, v))
  {
    var r := Put(b, k, v);
    PutKeepsKeyOrder(b, k, v);
    forall i, j | 0 <= i < j < |r| ensures r[i].0 != r[j].0 {
      assert Keys(r)[i] == r[i].0 && Keys(r)[j] == r[j].0;
      if k in Keys(b) {
        assert Keys(b)[i] == b[i].0 && Keys(b)[j] == b[j].0;
      } else if j < |b| {
        assert Keys(b)[i] == b[i].0 && Keys(b)[j] == b[j].0;
      } else {
        assert Keys(b)[i] == b[i].0;
      }
    }
  }

  /** In a dictionary, looking up the i-th key gives the i-th value. */
  lemma {:induction false} LookupAt(b: Body, i: nat)
    requires UniqueKeys(b) && i < |b|
    ensures Lookup(b, b[i].0) == Some(b[i].1)
  {
    if i > 0 {
      assert b[0].0 != b[i].0;
      assert b[1..][i - 1] == b[i];
      LookupAt(b[1..], i - 1);
    }
  }
}
