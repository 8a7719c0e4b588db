/**
 * The Python values the frame-construction helpers inspect, and Python's `dict`
 * with string keys: an insertion-ordered list of entries in which a key occurs once.
 */
module PyValues {
  import opened Wrappers

  /** A Python object, as far as the construction helpers look into it. Floats carry their
      literal text only; every class the helpers do not distinguish is a `PyObject`. */
  datatype PyValue =
    | PyNone
    | PyBool(b: bool)
    | PyInt(i: int)
    | PyFloat(text: string)
    | PyStr(s: string)
    | PyList(items: seq<PyValue>)
    | PyTuple(items: seq<PyValue>)
    | PyNamedTuple(cls: string, fields: seq<(string, PyValue)>)
    | PyDict(entries: seq<(string, PyValue)>)
    | PyGenerator(items: seq<PyValue>)
    | PyObject(cls: string)

  /** `type(value)`: a named tuple and any other object have their class as type. */
  datatype PyType =
    | NoneType | BoolType | IntType | FloatType | StrType
    | ListType | TupleType | DictType | GeneratorType
    | ClassType(name: string)

  function TypeOf(v: PyValue): PyType {
    match v
    case PyNone => NoneType
    case PyBool(_) => BoolType
    case PyInt(_) => IntType
    case PyFloat(_) => FloatType
    case PyStr(_) => StrType
    case PyList(_) => ListType
    case PyTuple(_) => TupleType
    case PyNamedTuple(c, _) => ClassType(c)
    case PyDict(_) => DictType
    case PyGenerator(_) => GeneratorType
    case PyObject(c) => ClassType(c)
  }

  // ---------------------------------------------------------------------------
  // Dicts
  // ---------------------------------------------------------------------------

  /** A dict's entries in insertion order. */
  type Dict<V> = seq<(string, V)>

  function Keys<V>(d: Dict<V>): (ks: seq<string>)
    ensures |ks| == |d| && forall i :: 0 <= i < |d| ==> ks[i] == d[i].0
  {
    if |d| == 0 then [] else [d[0].0] + Keys(d[1..])
  }

  predicate Distinct<T(==)>(s: seq<T>) {
    forall i, j :: 0 <= i < j < |s| ==> s[i] != s[j]
  }

  /** Keys occur once, as in every Python dict. */
  predicate WellFormed<V>(d: Dict<V>) {
    Distinct(Keys(d))
  }

  /** `d.get(k)`. */
  function Get<V>(d: Dict<V>, k: string): (r: Option<V>)
    ensures r.Some? <==> k in Keys(d)
  {
    if |d| == 0 then None
    else if d[0].0 == k then Some(d[0].1)
    else Get(d[1..], k)
  }

  /** `d.get(k, default)`. */
  function GetOr<V>(d: Dict<V>, k: string, default: V): V {
    match Get(d, k)
    case Some(v) => v
    case None => default
  }

  /** `d[k] = v`: an existing key keeps its place, a new one goes last. */
  function Set<V>(d: Dict<V>, k: string, v: V): (r: Dict<V>)
    ensures Keys(r) == if k in Keys(d) then Keys(d) else Keys(d) + [k]
    ensures Get(r, k) == Some(v)
    ensures forall k' :: k' != k ==> Get(r, k') == Get(d, k')
  {
    if |d| == 0 then [(k, v)]
    else if d[0].0 == k then [(k, v)] + d[1..]
    else
      var rest := Set(d[1..], k, v);
      assert Keys([d[0]] + rest) == [d[0].0] + Keys(rest);
      [d[0]] + rest
  }

  /** The keys of s in order of first occurrence. */
  function Dedup(s: seq<string>): (r: seq<string>)
    ensures Distinct(r)
    ensures forall x :: x in r <==> x in s
  {
    if |s| == 0 then []
    else
      var p := Dedup(s[..|s| - 1]);
      assert forall x :: x in s <==> x in s[..|s| - 1] || x == s[|s| - 1];
      if s[|s| - 1] in p then p else p + [s[|s| - 1]]
  }

  /** The value of the last pair with key k. */
  function LastValue<V>(ps: seq<(string, V)>, k: string): (r: Option<V>)
  {
    if |ps| == 0 then None
    else if ps[|ps| - 1].0 == k then Some(ps[|ps| - 1].1)
    else
      assert Keys(ps) == Keys(ps[..|ps| - 1]) + [ps[|ps| - 1].0];
      LastValue(ps[..|ps| - 1], k)
  }

  /** A dict comprehension `{k: v for (k, v) in ps}`: later pairs overwrite earlier ones. */
  function FromPairs<V>(ps: seq<(string, V)>): (r: Dict<V>)
    ensures Keys(r) == Dedup(Keys(ps))
    ensures forall k :: Get(r, k) == LastValue(ps, k)
  {
    if |ps| == 0 then []
    else
      var n := |ps| - 1;
      assert Keys(ps) == Keys(ps[..n]) + [ps[n].0];
      assert Keys(ps)[..n] == Keys(ps[..n]);
      Set(FromPairs(ps[..n]), ps[n].0, ps[n].1)
  }

  /** Looking up a key in a dict whose keys are distinct finds its only entry. */
  lemma {:induction false} GetAt<V>(d: Dict<V>, i: int)
    requires WellFormed(d) && 0 <= i < |d|
    ensures Get(d, d[i].0) == Some(d[i].1)
  {
    if i > 0 {
      assert Keys(d)[0] != Keys(d)[i];
      assert Keys(d[1..]) == Keys(d)[1..];
      GetAt(d[1..], i - 1);
    }
  }

  /** Appending an entry with a new key: lookups of other keys are unchanged. */
  lemma {:induction false} GetSnoc<V>(d: Dict<V>, k: string, v: V, k': string)
    ensures Get(d + [(k, v)], k') == if k' in Keys(d) then Get(d, k') else if k' == k then Some(v) else None
  {
    if |d| > 0 {
      assert (d + [(k, v)])[1..] == d[1..] + [(k, v)];
      GetSnoc(d[1..], k, v, k');
    } else {
      assert d + [(k, v)] == [(k, v)];
    }
  }

  /** The last pair with key k after appending a pair. */
  lemma LastValueSnoc<V>(ps: seq<(string, V)>, x: (string, V), k: string)
    ensures LastValue(ps + [x], k) == if x.0 == k then Some(x.1) else LastValue(ps, k)
  {
    assert (ps + [x])[..|ps|] == ps;
  }

  /** When every pair with key k carries v, the comprehension maps k to v. */
  lemma {:induction false} LastValueKeyed<V>(ps: seq<(string, V)>, k: string, v: V)
    requires k in Keys(ps)
    requires forall i :: 0 <= i < |ps| && ps[i].0 == k ==> ps[i].1 == v
    ensures LastValue(ps, k) == Some(v)
  {
    var n := |ps| - 1;
    if ps[n].0 != k {
      assert Keys(ps) == Keys(ps[..n]) + [ps[n].0];
      LastValueKeyed(ps[..n], k, v);
    }
  }

  lemma DistinctSnoc<T>(s: seq<T>, x: T)
    requires Distinct(s) && x !in s
    ensures Distinct(s + [x])
  {
  }

  /** `[x for x in xs if x not in ys]`. */
  function NotIn(xs: seq<string>, ys: seq<string>): (r: seq<string>)
    ensures forall x :: x in r <==> x in xs && x !in ys
  {
    if |xs| == 0 then []
    else
      var n := |xs| - 1;
      assert forall x :: x in xs <==> x in xs[..n] || x == xs[n];
      NotIn(xs[..n], ys) + (if xs[n] in ys then [] else [xs[n]])
  }

  lemma NotInSnoc(xs: seq<string>, x: string, ys: seq<string>)
    ensures NotIn(xs + [x], ys) == NotIn(xs, ys) + (if x in ys then [] else [x])
  {
    assert (xs + [x])[..|xs|] == xs;
  }

  /** `d.pop(k)` after the value was read: every entry with key k goes. */
  function Remove<V>(d: Dict<V>, k: string): (r: Dict<V>)
    ensures Get(r, k) == None
    ensures forall k' :: k' != k ==> Get(r, k') == Get(d, k')
  {
    if |d| == 0 then []
    else if d[0].0 == k then Remove(d[1..], k)
    else [d[0]] + Remove(d[1..], k)
  }

  /** Setting a new key appends its entry. */
  lemma {:induction false} SetAppends<V>(d: Dict<V>, k: string, v: V)
    requires k !in Keys(d)
    ensures Set(d, k, v) == d + [(k, v)]
  {
    if |d| > 0 {
      assert Keys(d) == [d[0].0] + Keys(d[1..]);
      SetAppends(d[1..], k, v);
      assert Set(d, k, v) == [d[0]] + Set(d[1..], k, v);
      assert [d[0]] + (d[1..] + [(k, v)]) == d + [(k, v)];
    }
  }
}
