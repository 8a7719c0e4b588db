/**
 * The recursive inspections of Python values done before a frame is built: finding
 * nested structured data, unpacking named tuples into dicts, and the first non-None
 * element of a sequence.
 */
module Nested {
  import opened Wrappers
  import opened PyValues

  /** `contains_nested`: the value itself is nested, or some dict value, list item or tuple
      item (a named tuple is a tuple) contains nested data. */
  predicate ContainsNested(v: PyValue, isNested: PyValue -> bool) {
    if isNested(v) then true
    else
      match v
      case PyDict(es) => exists i :: 0 <= i < |es| && ContainsNested(es[i].1, isNested)
      case PyList(xs) => exists i :: 0 <= i < |xs| && ContainsNested(xs[i], isNested)
      case PyTuple(xs) => exists i :: 0 <= i < |xs| && ContainsNested(xs[i], isNested)
      case PyNamedTuple(_, fs) => exists i :: 0 <= i < |fs| && ContainsNested(fs[i].1, isNested)
      case _ => false
  }

  /** w is v, or lies within one of the dict values, list items or tuple items of v. */
  predicate Within(w: PyValue, v: PyValue) {
    w == v ||
      match v
      case PyDict(es) => exists i :: 0 <= i < |es| && Within(w, es[i].1)
      case PyList(xs) => exists i :: 0 <= i < |xs| && Within(w, xs[i])
      case PyTuple(xs) => exists i :: 0 <= i < |xs| && Within(w, xs[i])
      case PyNamedTuple(_, fs) => exists i :: 0 <= i < |fs| && Within(w, fs[i].1)
      case _ => false
  }

  /** The search finds nested data exactly when some value within v is nested. */
  lemma {:induction false} ContainsNestedWithin(v: PyValue, isNested: PyValue -> bool)
    ensures ContainsNested(v, isNested) <==> exists w :: Within(w, v) && isNested(w)
  {
    if ContainsNested(v, isNested) && !isNested(v) {
      var c :| c < v && (c in ChildValues(v)) && ContainsNested(c, isNested) by {
        ChildOfContains(v, isNested);
      }
      ContainsNestedWithin(c, isNested);
      var w :| Within(w, c) && isNested(w);
      WithinChild(w, c, v);
    }
    if exists w :: Within(w, v) && isNested(w) {
      var w :| Within(w, v) && isNested(w);
      if w != v {
        var c := WithinSomeChild(w, v);
        ContainsNestedWithin(c, isNested);
        ChildContains(c, v, isNested);
      }
    }
  }

  /** The values the search descends into. */
  function ChildValues(v: PyValue): (cs: seq<PyValue>)
    ensures forall c :: c in cs ==> c < v
  {
    match v
    case PyDict(es) => seq(|es|, i requires 0 <= i < |es| => es[i].1)
    case PyList(xs) => xs
    case PyTuple(xs) => xs
    case PyNamedTuple(_, fs) => seq(|fs|, i requires 0 <= i < |fs| => fs[i].1)
    case _ => []
  }

  lemma ChildOfContains(v: PyValue, isNested: PyValue -> bool)
    requires ContainsNested(v, isNested) && !isNested(v)
    ensures exists c :: c < v && c in ChildValues(v) && ContainsNested(c, isNested)
  {
    match v
    case PyDict(es) =>
      var i :| 0 <= i < |es| && ContainsNested(es[i].1, isNested);
      assert ChildValues(v)[i] == es[i].1;
    case PyList(xs) =>
    case PyTuple(xs) =>
    case PyNamedTuple(_, fs) =>
      var i :| 0 <= i < |fs| && ContainsNested(fs[i].1, isNested);
      assert ChildValues(v)[i] == fs[i].1;
  }

  lemma WithinChild(w: PyValue, c: PyValue, v: PyValue)
    requires c in ChildValues(v) && Within(w, c)
    ensures Within(w, v)
  {
    var i :| 0 <= i < |ChildValues(v)| && ChildValues(v)[i] == c;
    match v
    case PyDict(es) => assert es[i].1 == c;
    case PyList(xs) =>
    case PyTuple(xs) =>
    case PyNamedTuple(_, fs) => assert fs[i].1 == c;
  }

  lemma WithinSomeChild(w: PyValue, v: PyValue) returns (c: PyValue)
    requires Within(w, v) && w != v
    ensures c < v && c in ChildValues(v) && Within(w, c)
  {
    match v
    case PyDict(es) =>
      var i :| 0 <= i < |es| && Within(w, es[i].1);
      c := es[i].1;
      assert ChildValues(v)[i] == c;
    case PyList(xs) =>
      var i :| 0 <= i < |xs| && Within(w, xs[i]);
      c := xs[i];
    case PyTuple(xs) =>
      var i :| 0 <= i < |xs| && Within(w, xs[i]);
      c := xs[i];
    case PyNamedTuple(_, fs) =>
      var i :| 0 <= i < |fs| && Within(w, fs[i].1);
      c := fs[i].1;
      assert ChildValues(v)[i] == c;
  }

  lemma ChildContains(c: PyValue, v: PyValue, isNested: PyValue -> bool)
    requires c in ChildValues(v) && ContainsNested(c, isNested)
    ensures ContainsNested(v, isNested)
  {
    var i :| 0 <= i < |ChildValues(v)| && ChildValues(v)[i] == c;
    match v
    case PyDict(es) => assert es[i].1 == c;
    case PyList(xs) =>
    case PyTuple(xs) =>
    case PyNamedTuple(_, fs) => assert fs[i].1 == c;
  }

  // ---------------------------------------------------------------------------
  // Named tuples
  // ---------------------------------------------------------------------------

  /** The class test `contains_nested` is called with before unpacking rows. */
  predicate IsNamedTuple(v: PyValue) {
    v.PyNamedTuple?
  }

  /** `nt_unpack`: dict values and list items are unpacked, a named tuple becomes the dict of
      its fields, a tuple stays a tuple of unpacked items; anything else is returned as is. */
  function NtUnpack(v: PyValue): PyValue {
    match v
    case PyDict(es) => PyDict(seq(|es|, i requires 0 <= i < |es| => (es[i].0, NtUnpack(es[i].1))))
    case PyList(xs) => PyList(seq(|xs|, i requires 0 <= i < |xs| => NtUnpack(xs[i])))
    case PyNamedTuple(_, fs) => PyDict(seq(|fs|, i requires 0 <= i < |fs| => (fs[i].0, NtUnpack(fs[i].1))))
    case PyTuple(xs) => PyTuple(seq(|xs|, i requires 0 <= i < |xs| => NtUnpack(xs[i])))
    case _ => v
  }

  /** After unpacking, no named tuple is left anywhere the nested search looks. */
  lemma {:induction false} NtUnpackLeavesNoNamedTuple(v: PyValue)
    ensures !ContainsNested(NtUnpack(v), IsNamedTuple)
  {
    match v
    case PyDict(es) =>
      forall i | 0 <= i < |es| ensures !ContainsNested(NtUnpack(es[i].1), IsNamedTuple) {
        NtUnpackLeavesNoNamedTuple(es[i].1);
      }
    case PyList(xs) =>
      forall i | 0 <= i < |xs| ensures !ContainsNested(NtUnpack(xs[i]), IsNamedTuple) {
        NtUnpackLeavesNoNamedTuple(xs[i]);
      }
    case PyNamedTuple(_, fs) =>
      forall i | 0 <= i < |fs| ensures !ContainsNested(NtUnpack(fs[i].1), IsNamedTuple) {
        NtUnpackLeavesNoNamedTuple(fs[i].1);
      }
    case PyTuple(xs) =>
      forall i | 0 <= i < |xs| ensures !ContainsNested(NtUnpack(xs[i]), IsNamedTuple) {
        NtUnpackLeavesNoNamedTuple(xs[i]);
      }
    case _ =>
  }

  /** A value holding no named tuple is returned unchanged. */
  lemma {:induction false} NtUnpackKeepsPlainValues(v: PyValue)
    requires !ContainsNested(v, IsNamedTuple)
    ensures NtUnpack(v) == v
  {
    match v
    case PyDict(es) =>
      forall i | 0 <= i < |es| ensures NtUnpack(es[i].1) == es[i].1 {
        NtUnpackKeepsPlainValues(es[i].1);
      }
      assert NtUnpack(v).entries == es;
    case PyList(xs) =>
      forall i | 0 <= i < |xs| ensures NtUnpack(xs[i]) == xs[i] {
        NtUnpackKeepsPlainValues(xs[i]);
      }
      assert NtUnpack(v).items == xs;
    case PyTuple(xs) =>
      forall i | 0 <= i < |xs| ensures NtUnpack(xs[i]) == xs[i] {
        NtUnpackKeepsPlainValues(xs[i]);
      }
      assert NtUnpack(v).items == xs;
    case _ =>
  }

  /** Unpacking twice is unpacking once. */
  lemma NtUnpackIdempotent(v: PyValue)
    ensures NtUnpack(NtUnpack(v)) == NtUnpack(v)
  {
    NtUnpackLeavesNoNamedTuple(v);
    NtUnpackKeepsPlainValues(NtUnpack(v));
  }

  // ---------------------------------------------------------------------------
  // First non-None element
  // ---------------------------------------------------------------------------

  /** The first element of xs that is not None, or None when every element is None. */
  function FirstIn(xs: seq<PyValue>): (r: PyValue)
    ensures r == PyNone <==> forall i :: 0 <= i < |xs| ==> xs[i] == PyNone
    ensures r != PyNone ==> exists i :: 0 <= i < |xs| && xs[i] == r && forall j :: 0 <= j < i ==> xs[j] == PyNone
  {
    if |xs| == 0 then PyNone
    else if xs[0] != PyNone then xs[0]
    else
      var r := FirstIn(xs[1..]);
      assert forall i :: 1 <= i < |xs| ==> xs[i] == xs[1..][i - 1];
      r
  }

  /** `_get_first_non_none`: a sequence that is itself None gives None. */
  function FirstNonNone(values: Option<seq<PyValue>>): (r: PyValue)
    ensures r == PyNone <==> values.None? || forall i :: 0 <= i < |values.value| ==> values.value[i] == PyNone
    ensures r != PyNone ==> values.Some?
    ensures r != PyNone ==>
      exists i :: 0 <= i < |values.value| && values.value[i] == r && forall j :: 0 <= j < i ==> values.value[j] == PyNone
  {
    if values.Some? then FirstIn(values.value) else PyNone
  }
}
