/**
 * DataFrame construction bookkeeping: renaming or reordering the series of a new frame
 * (`_handle_columns_arg`), broadcasting scalar dict values (`_expand_dict_scalars`), the
 * schema-key check of `dict_to_pydf`, and orientation and column-count inference for
 * sequences and numpy arrays.
 */
module Frames {
  import opened Wrappers
  import opened DataTypes
  import opened PyValues
  import opened Schema

  /** The ValueError, ShapeError and KeyError cases the helpers raise. */
  datatype ConstructionError =
    | ColumnsMismatch
    | SchemaNamesMismatch
    | MissingKey(key: string)
    | InvalidOrient(orient: string)
    | TooManyDimensions(shape: seq<nat>)
    | StructuredTooDeep(field: string)
    | SchemaDimensionMismatch

  // ---------------------------------------------------------------------------
  // _handle_columns_arg
  // ---------------------------------------------------------------------------

  /** A `PySeries` handle; `rename` changes its name in place. */
  class PySeries {
    var name: string
    const values: seq<PyValue>

    constructor (name: string, values: seq<PyValue>)
      ensures this.name == name && this.values == values
    {
      this.name := name;
      this.values := values;
    }

    method Rename(n: string)
      modifies this
      ensures name == n
    {
      name := n;
    }
  }

  /** The last position before i at which the list holds the object s. */
  function LastRef(data: seq<PySeries>, s: PySeries, i: nat): (r: Option<nat>)
    requires i <= |data|
    ensures r.Some? ==> r.value < i && data[r.value] == s
    ensures r.Some? <==> exists j :: 0 <= j < i && data[j] == s
  {
    if i == 0 then None
    else if data[i - 1] == s then Some(i - 1)
    else LastRef(data, s, i - 1)
  }

  /** When each object occurs once, the last position of an object is its position. */
  lemma {:induction false} LastRefOfDistinct(data: seq<PySeries>, k: nat, i: nat)
    requires Distinct(data) && k < i <= |data|
    ensures LastRef(data, data[k], i) == Some(k)
  {
    if k < i - 1 {
      LastRefOfDistinct(data, k, i - 1);
    }
  }

  /** The (name, series) pairs `series_map` is built from. */
  function NamedPairs(data: seq<PySeries>): (ps: seq<(string, PySeries)>)
    reads set s | s in data
    ensures |ps| == |data| && forall i :: 0 <= i < |data| ==> ps[i] == (data[i].name, data[i])
  {
    if |data| == 0 then [] else [(data[0].name, data[0])] + NamedPairs(data[1..])
  }

  /** Every column names one of the series. */
  predicate AllNamed(columns: seq<string>, pairs: seq<(string, PySeries)>) {
    forall c :: c in columns ==> c in Keys(pairs)
  }

  /** `_handle_columns_arg`: no columns leaves the data alone; no data gives one empty series
      per column; a dict's series are reordered by name when every column names one of them;
      otherwise series i is renamed to column i, so an object listed twice ends with the name
      of its last position. Differing counts fail. */
  method HandleColumnsArg(data: seq<PySeries>, columns: seq<string>, fromDict: bool) returns (r: Result<seq<PySeries>, ConstructionError>)
    modifies set s | s in data
    ensures |columns| == 0 ==> r == Ok(data)
    ensures |columns| > 0 && |data| == 0 ==>
      r.Ok? && |r.value| == |columns| &&
      forall i :: 0 <= i < |columns| ==> fresh(r.value[i]) && r.value[i].name == columns[i] && r.value[i].values == []
    ensures |columns| > 0 && |data| > 0 && |data| != |columns| ==> r == Err(ColumnsMismatch)
    ensures r.Err? || |columns| == 0 || |data| == 0 || (fromDict && AllNamed(columns, old(NamedPairs(data)))) ==>
      forall s :: s in data ==> s.name == old(s.name)
    ensures |data| == |columns| > 0 && fromDict && AllNamed(columns, old(NamedPairs(data))) ==>
      r.Ok? && |r.value| == |columns| &&
      forall i :: 0 <= i < |columns| ==>
        r.value[i] in data && r.value[i].name == columns[i] && Some(r.value[i]) == LastValue(old(NamedPairs(data)), columns[i])
    ensures |data| == |columns| > 0 && !(fromDict && AllNamed(columns, old(NamedPairs(data)))) ==>
      r == Ok(data) && forall k :: 0 <= k < |data| ==> data[k].name == columns[LastRef(data, data[k], |data|).value]
  {
    if |columns| == 0 {
      return Ok(data);
    }
    if |data| == 0 {
      var out := NewEmptySeries(columns);
      return Ok(out);
    }
    if |data| != |columns| {
      return Err(ColumnsMismatch);
    }
    var pairs := NamedPairs(data);
    if fromDict && AllNamed(columns, pairs) {
      var out := ByName(pairs, columns);
      return Ok(out);
    }
    RenamePositionally(data, columns);
    return Ok(data);
  }

  /** `[pl.Series(c, None)._s for c in columns]`. */
  method NewEmptySeries(columns: seq<string>) returns (out: seq<PySeries>)
    ensures |out| == |columns|
    ensures forall i :: 0 <= i < |columns| ==> fresh(out[i]) && out[i].name == columns[i] && out[i].values == []
  {
    out := [];
    for i := 0 to |columns|
      invariant |out| == i
      invariant forall j :: 0 <= j < i ==> fresh(out[j]) && out[j].name == columns[j] && out[j].values == []
    {
      var s := new PySeries(columns[i], []);
      out := out + [s];
    }
  }

  /** `[series_map[col] for col in columns]`: each column's series, found by name. */
  function ByName(pairs: seq<(string, PySeries)>, columns: seq<string>): (out: seq<PySeries>)
    requires AllNamed(columns, pairs)
    ensures |out| == |columns|
    ensures forall i :: 0 <= i < |columns| ==> (columns[i], out[i]) in pairs
    ensures forall i :: 0 <= i < |columns| ==> Some(out[i]) == LastValue(pairs, columns[i])
  {
    var seriesMap := FromPairs(pairs);
    var out := seq(|columns|, i requires 0 <= i < |columns| => Get(seriesMap, columns[i]).value);
    assert forall i :: 0 <= i < |columns| ==> (columns[i], out[i]) in pairs by {
      forall i | 0 <= i < |columns|
        ensures (columns[i], out[i]) in pairs
      {
        NamedEntry(pairs, columns[i]);
      }
    }
    out
  }

  /** `for i, c in enumerate(columns): data[i].rename(c)`. */
  method RenamePositionally(data: seq<PySeries>, columns: seq<string>)
    requires |data| == |columns|
    modifies set s | s in data
    ensures forall k :: 0 <= k < |data| ==> data[k].name == columns[LastRef(data, data[k], |data|).value]
  {
    for i := 0 to |columns|
      invariant forall k :: 0 <= k < |data| ==>
        data[k].name == match LastRef(data, data[k], i) case Some(j) => columns[j] case None => old(data[k].name)
    {
      data[i].Rename(columns[i]);
    }
  }

  /** The series a name maps to in `series_map` carries that name. */
  lemma {:induction false} NamedEntry(ps: seq<(string, PySeries)>, c: string)
    requires c in Keys(ps)
    ensures LastValue(ps, c).Some? && (c, LastValue(ps, c).value) in ps
  {
    var n := |ps| - 1;
    if ps[n].0 != c {
      assert Keys(ps) == Keys(ps[..n]) + [ps[n].0];
      NamedEntry(ps[..n], c);
    }
  }

  // ---------------------------------------------------------------------------
  // _expand_dict_scalars
  // ---------------------------------------------------------------------------

  /** `arrlen`: the length of a sized value other than a string, None otherwise. */
  function ArrLen(v: PyValue): Option<nat> {
    match v
    case PyList(items) => Some(|items|)
    case PyTuple(items) => Some(|items|)
    case PyNamedTuple(_, fields) => Some(|fields|)
    case PyDict(entries) => Some(|entries|)
    case _ => None
  }

  /** `arrlen(val) or 0`. */
  function LenOrZero(v: PyValue): nat {
    match ArrLen(v)
    case Some(n) => n
    case None => 0
  }

  /** `max(arrlen(val) or 0 for val in data.values())`. */
  function ArrayLength(data: Dict<PyValue>): (n: nat)
    ensures forall i :: 0 <= i < |data| ==> LenOrZero(data[i].1) <= n
    ensures |data| == 0 ==> n == 0
    ensures |data| > 0 ==> exists i :: 0 <= i < |data| && LenOrZero(data[i].1) == n
  {
    if |data| == 0 then 0
    else
      var k := |data| - 1;
      var m := ArrayLength(data[..k]);
      assert forall i :: 0 <= i < k ==> data[..k][i] == data[i];
      if LenOrZero(data[k].1) > m then LenOrZero(data[k].1) else m
  }

  /** How a new series is made from a dict value. */
  datatype ColumnSource =
    | FromValues(values: PyValue)          // `pl.Series(name, values=val)`
    | Repeated(value: PyValue, count: nat) // the value `count` times
    | StructOf(fields: PyValue)            // `pl.DataFrame(val).to_struct(name)`

  datatype Column = Column(name: string, dtype: Option<DataType>, source: ColumnSource)

  /** The number of rows of a column, where the model can tell. */
  function Height(c: Column): Option<nat> {
    match c.source
    case FromValues(v) => if v.PyGenerator? then Some(|v.items|) else ArrLen(v)
    case Repeated(_, n) => Some(n)
    case StructOf(_) => None
  }

  /** Which of the four branches of `_expand_dict_scalars` applies. */
  datatype Expansion = Broadcast(len: nat) | AllEmpty | AllUnsized | NoColumns

  function ExpansionOf(data: Dict<PyValue>): (e: Expansion)
    ensures e.Broadcast? <==> exists i :: 0 <= i < |data| && LenOrZero(data[i].1) > 0
    ensures e.Broadcast? ==> forall i :: 0 <= i < |data| ==> LenOrZero(data[i].1) <= e.len
    ensures e.Broadcast? ==> exists i :: 0 <= i < |data| && ArrLen(data[i].1) == Some(e.len)
    ensures e == AllEmpty <==> |data| > 0 && forall i :: 0 <= i < |data| ==> ArrLen(data[i].1) == Some(0)
    ensures e == AllUnsized <==> |data| > 0 && forall i :: 0 <= i < |data| ==> ArrLen(data[i].1).None?
  {
    if |data| == 0 then NoColumns
    else
      var n := ArrayLength(data);
      if n > 0 then Broadcast(n)
      else if forall i :: 0 <= i < |data| ==> ArrLen(data[i].1) == Some(0) then AllEmpty
      else if forall i :: 0 <= i < |data| ==> ArrLen(data[i].1).None? then AllUnsized
      else NoColumns
  }

  /** The column of one dict entry under a branch that builds columns. */
  function ColumnFor(e: Expansion, name: string, val: PyValue, dtype: Option<DataType>): Column {
    match e
    case Broadcast(n) =>
      if val.PyDict? && dtype != Some(Struct) then Column(name, None, StructOf(val))
      else if ArrLen(val).Some? || val.PyGenerator? then Column(name, dtype, FromValues(val))
      else Column(name, dtype, Repeated(val, n))
    case AllUnsized => Column(name, dtype, FromValues(if val.PyGenerator? then val else PyList([val])))
    case _ => Column(name, dtype, FromValues(val))
  }

  /** `updated_data` before any reordering. */
  function Expanded(data: Dict<PyValue>, dtypes: Dict<DataType>): Dict<Column> {
    var e := ExpansionOf(data);
    if e == NoColumns then [] else ExpandedUnder(data, dtypes, e)
  }

  /** One column per dict entry, built under branch e. */
  function ExpandedUnder(data: Dict<PyValue>, dtypes: Dict<DataType>, e: Expansion): Dict<Column> {
    seq(|data|, i requires 0 <= i < |data| => (data[i].0, ColumnFor(e, data[i].0, data[i].1, Get(dtypes, data[i].0))))
  }

  /** The columns keep the dict's keys, in order, unless no branch builds columns. */
  lemma ExpandedKeys(data: Dict<PyValue>, dtypes: Dict<DataType>)
    ensures Keys(Expanded(data, dtypes)) == if ExpansionOf(data) == NoColumns then [] else Keys(data)
  {
    var e := ExpansionOf(data);
    if e != NoColumns {
      ExpandedUnderKeys(data, dtypes, e);
    }
  }

  lemma ExpandedUnderKeys(data: Dict<PyValue>, dtypes: Dict<DataType>, e: Expansion)
    ensures Keys(ExpandedUnder(data, dtypes, e)) == Keys(data)
  {
  }

  /** No branch builds columns exactly when the dict is empty, or no value has positive length
      while some value has length 0 and another none. */
  lemma NoColumnsWhen(data: Dict<PyValue>)
    ensures ExpansionOf(data) == NoColumns <==>
      |data| == 0 || ((exists i :: 0 <= i < |data| && ArrLen(data[i].1) == Some(0)) && (exists i :: 0 <= i < |data| && ArrLen(data[i].1).None?) && forall i :: 0 <= i < |data| ==> LenOrZero(data[i].1) == 0)
  {
    if ExpansionOf(data) == NoColumns && |data| > 0 {
      assert !(forall i :: 0 <= i < |data| ==> ArrLen(data[i].1) == Some(0));
      assert !(forall i :: 0 <= i < |data| ==> ArrLen(data[i].1).None?);
    }
  }

  /** With some value of positive length L, each scalar, None or other unsized value becomes
      L copies of itself, and each sized value (a dict forced to Struct included) keeps its
      own length, at most L; some column has length exactly L. */
  lemma BroadcastHeights(data: Dict<PyValue>, dtypes: Dict<DataType>, i: int)
    requires ExpansionOf(data).Broadcast? && 0 <= i < |data|
    ensures var c := Expanded(data, dtypes)[i].1;
      && (ArrLen(data[i].1).None? && !data[i].1.PyGenerator? ==> c.source == Repeated(data[i].1, ExpansionOf(data).len) && Height(c) == Some(ExpansionOf(data).len))
      && (ArrLen(data[i].1).Some? && !(data[i].1.PyDict? && Get(dtypes, data[i].0) != Some(Struct)) ==> Height(c) == ArrLen(data[i].1) && Height(c).value <= ExpansionOf(data).len)
  {
  }

  /** All values empty: every column is empty. All values unsized: every value that is not
      a generator becomes a one-row column. */
  lemma UnbroadcastHeights(data: Dict<PyValue>, dtypes: Dict<DataType>, i: int)
    requires 0 <= i < |data|
    ensures ExpansionOf(data) == AllEmpty ==> Height(Expanded(data, dtypes)[i].1) == Some(0)
    ensures ExpansionOf(data) == AllUnsized && !data[i].1.PyGenerator? ==> Height(Expanded(data, dtypes)[i].1) == Some(1)
  {
  }

  /** `_expand_dict_scalars` before the reordering: no columns, or those of its branch. */
  method FillColumns(data: Dict<PyValue>, dtypes: Dict<DataType>) returns (updated: Dict<Column>)
    requires WellFormed(data)
    ensures updated == Expanded(data, dtypes)
  {
    var e := ExpansionOf(data);
    if e == NoColumns {
      return [];
    }
    updated := FillUnder(data, dtypes, e);
  }

  /** The `for name, val in data.items()` loop filling `updated_data` under branch e. */
  method FillUnder(data: Dict<PyValue>, dtypes: Dict<DataType>, e: Expansion) returns (updated: Dict<Column>)
    requires WellFormed(data)
    ensures updated == ExpandedUnder(data, dtypes, e)
  {
    updated := [];
    for i := 0 to |data|
      invariant |updated| == i
      invariant forall j :: 0 <= j < i ==> updated[j] == (data[j].0, ColumnFor(e, data[j].0, data[j].1, Get(dtypes, data[j].0)))
      invariant Keys(updated) == Keys(data)[..i]
    {
      var name := data[i].0;
      var col := ColumnFor(e, name, data[i].1, Get(dtypes, name));
      assert name !in Keys(data)[..i];
      SetAppends(updated, name, col);
      updated := Set(updated, name, col);
      assert Keys(data)[..i + 1] == Keys(data)[..i] + [name];
    }
  }

  /** `order[j]` can be popped: it is a key and was not popped before. */
  predicate Poppable(order: seq<string>, keys: seq<string>, j: int)
    requires 0 <= j < |order|
  {
    order[j] in keys && order[j] !in order[..j]
  }

  /** `order[j]` is the first column whose pop raises KeyError. */
  predicate FirstUnpoppable(order: seq<string>, keys: seq<string>, j: int) {
    0 <= j < |order| && !Poppable(order, keys, j) && forall i :: 0 <= i < j ==> Poppable(order, keys, i)
  }

  /** The outcome of `{col: d.pop(col) for col in order}` when an order is given: the entries of
      d in that order, and only those, or a KeyError at the first column that is not there. */
  ghost predicate InOrder<V>(d: Dict<V>, order: seq<string>, r: Result<Dict<V>, ConstructionError>) {
    if |order| == 0 then r == Ok(d)
    else if forall j :: 0 <= j < |order| ==> Poppable(order, Keys(d), j) then
      r.Ok? && Keys(r.value) == order && forall k :: Get(r.value, k) == (if k in order then Get(d, k) else None)
    else exists j :: FirstUnpoppable(order, Keys(d), j) && r == Err(MissingKey(order[j]))
  }

  /** Every column of the order can be popped exactly when the order lists distinct keys. */
  lemma PoppableAll(order: seq<string>, keys: seq<string>)
    ensures (forall j :: 0 <= j < |order| ==> Poppable(order, keys, j)) <==> Distinct(order) && forall c :: c in order ==> c in keys
  {
    if Distinct(order) {
      forall j | 0 <= j < |order|
        ensures order[j] !in order[..j]
      {
        assert forall i :: 0 <= i < j ==> order[..j][i] == order[i];
      }
    }
    if forall j :: 0 <= j < |order| ==> Poppable(order, keys, j) {
      forall i, j | 0 <= i < j < |order|
        ensures order[i] != order[j]
      {
        assert Poppable(order, keys, j);
        assert order[..j][i] == order[i];
      }
      forall c | c in order
        ensures c in keys
      {
        var j :| 0 <= j < |order| && order[j] == c;
        assert Poppable(order, keys, j);
      }
    }
  }

  /** After popping `order[..j]`, `rest` holds the entries not popped. */
  ghost predicate RestPopped<V>(d: Dict<V>, order: seq<string>, j: int, rest: Dict<V>)
    requires 0 <= j <= |order|
  {
    forall k :: Get(rest, k) == if k in order[..j] then None else Get(d, k)
  }

  /** After popping `order[..j]`, `out` holds the popped entries in order. */
  ghost predicate OutPopped<V>(d: Dict<V>, order: seq<string>, j: int, out: Dict<V>)
    requires 0 <= j <= |order|
  {
    && Keys(out) == order[..j]
    && (forall k :: Get(out, k) == if k in order[..j] then Get(d, k) else None)
    && (forall i :: 0 <= i < j ==> Poppable(order, Keys(d), i))
  }

  /** Popping `order[j]` takes it out of `rest`. */
  lemma PopStepRest<V>(d: Dict<V>, order: seq<string>, j: int, rest: Dict<V>)
    requires 0 <= j < |order| && RestPopped(d, order, j, rest)
    ensures RestPopped(d, order, j + 1, Remove(rest, order[j]))
  {
    assert order[..j + 1] == order[..j] + [order[j]];
  }

  /** Popping `order[j]`, still in `rest` with value v, puts it last in `out`. */
  lemma PopStepOut<V>(d: Dict<V>, order: seq<string>, j: int, rest: Dict<V>, out: Dict<V>, v: V)
    requires 0 <= j < |order| && RestPopped(d, order, j, rest) && OutPopped(d, order, j, out)
    requires Get(rest, order[j]) == Some(v)
    ensures OutPopped(d, order, j + 1, Set(out, order[j], v))
  {
    var c := order[j];
    assert c !in order[..j] && Get(d, c) == Some(v);
    assert Poppable(order, Keys(d), j);
    PopStepGets(d, order, j, out, v);
    assert Keys(Set(out, c, v)) == order[..j + 1] by {
      assert order[..j + 1] == order[..j] + [c];
    }
  }

  lemma PopStepGets<V>(d: Dict<V>, order: seq<string>, j: int, out: Dict<V>, v: V)
    requires 0 <= j < |order| && order[j] !in order[..j] && Get(d, order[j]) == Some(v)
    requires forall k :: Get(out, k) == if k in order[..j] then Get(d, k) else None
    ensures forall k :: Get(Set(out, order[j], v), k) == if k in order[..j + 1] then Get(d, k) else None
  {
    assert order[..j + 1] == order[..j] + [order[j]];
  }

  /** `order[j]` is gone: it was never a key, or it was popped already. */
  lemma PopMissing<V>(d: Dict<V>, order: seq<string>, j: int, rest: Dict<V>, out: Dict<V>)
    requires 0 <= j < |order| && RestPopped(d, order, j, rest) && OutPopped(d, order, j, out)
    requires Get(rest, order[j]) == None
    ensures FirstUnpoppable(order, Keys(d), j)
  {
  }

  /** `if order and list(updated_data) != order: return {col: updated_data.pop(col) for col in order}`. */
  method PopInOrder<V>(d: Dict<V>, order: seq<string>) returns (r: Result<Dict<V>, ConstructionError>)
    requires WellFormed(d)
    ensures InOrder(d, order, r)
  {
    if |order| == 0 {
      return Ok(d);
    }
    if Keys(d) == order {
      PoppableAll(order, Keys(d));
      return Ok(d);
    }
    var rest := d;
    var out: Dict<V> := [];
    for j := 0 to |order|
      invariant RestPopped(d, order, j, rest) && OutPopped(d, order, j, out)
    {
      var c := order[j];
      var v := Get(rest, c);
      if v.None? {
        PopMissing(d, order, j, rest, out);
        return Err(MissingKey(c));
      }
      PopStepOut(d, order, j, rest, out, v.value);
      PopStepRest(d, order, j, rest);
      out := Set(out, c, v.value);
      rest := Remove(rest, c);
    }
    assert order[..|order|] == order;
    return Ok(out);
  }

  /** `_expand_dict_scalars`: the columns of `Expanded`, put into the given order. */
  method ExpandDictScalars(data: Dict<PyValue>, dtypes: Dict<DataType>, order: seq<string>) returns (r: Result<Dict<Column>, ConstructionError>)
    requires WellFormed(data)
    ensures InOrder(Expanded(data, dtypes), order, r)
  {
    var updated := FillColumns(data, dtypes);
    ExpandedKeys(data, dtypes);
    r := PopInOrder(updated, order);
  }

  // ---------------------------------------------------------------------------
  // dict_to_pydf: the schema-key check
  // ---------------------------------------------------------------------------

  /** The first of cols that is not a key of d. */
  function FirstMissing<V>(cols: seq<string>, d: Dict<V>): (j: nat)
    requires exists c :: c in cols && c !in Keys(d)
    ensures j < |cols| && cols[j] !in Keys(d) && forall i :: 0 <= i < j ==> cols[i] in Keys(d)
  {
    if cols[0] !in Keys(d) then 0
    else
      assert exists c :: c in cols[1..] && c !in Keys(d);
      1 + FirstMissing(cols[1..], d)
  }

  /** `{col: data[col] for col in cols}`: a KeyError at the first column data lacks. */
  function SelectColumns(data: Dict<PyValue>, cols: seq<string>): (r: Result<Dict<PyValue>, ConstructionError>)
    ensures r.Ok? <==> forall c :: c in cols ==> c in Keys(data)
    ensures r.Err? ==> exists j :: FirstMissingAt(cols, data, j) && r.error == MissingKey(cols[j])
    ensures r.Ok? ==> Keys(r.value) == Dedup(cols) && forall c :: c in cols ==> Get(r.value, c) == Get(data, c)
  {
    if forall c :: c in cols ==> c in Keys(data) then
      var ps := seq(|cols|, i requires 0 <= i < |cols| => (cols[i], Get(data, cols[i]).value));
      assert Keys(ps) == cols;
      var r := FromPairs(ps);
      assert forall c :: c in cols ==> Get(r, c) == Get(data, c) by {
        forall c | c in cols
          ensures Get(r, c) == Get(data, c)
        {
          LastValueKeyed(ps, c, Get(data, c).value);
        }
      }
      Ok(r)
    else
      var j := FirstMissing(cols, data);
      assert FirstMissingAt(cols, data, j);
      Err(MissingKey(cols[j]))
  }

  predicate FirstMissingAt<V>(cols: seq<string>, d: Dict<V>, j: int) {
    0 <= j < |cols| && cols[j] !in Keys(d) && forall i :: 0 <= i < j ==> cols[i] in Keys(d)
  }

  /** `dict_to_pydf` with a dict schema and non-empty data: every data key must be a schema
      column, and the data is then re-read in schema order. */
  function CheckDictSchema(data: Dict<PyValue>, schema: Option<SchemaDefinition>): (r: Result<Dict<PyValue>, ConstructionError>)
    ensures !(schema.Some? && schema.value.SchemaDict? && |data| > 0) ==> r == Ok(data)
    ensures r == Err(SchemaNamesMismatch) <==>
      schema.Some? && schema.value.SchemaDict? && |data| > 0 && exists k :: k in Keys(data) && k !in Keys(schema.value.fields)
    ensures schema.Some? && schema.value.SchemaDict? && |data| > 0 && r.Ok? ==> Keys(r.value) == Dedup(Keys(schema.value.fields))
    ensures r.Ok? ==> forall k :: Get(r.value, k) == Get(data, k)
    ensures r.Ok? <==>
      (!(schema.Some? && schema.value.SchemaDict? && |data| > 0) ||
       ((forall k :: k in Keys(data) ==> k in Keys(schema.value.fields)) &&
        (forall c :: c in Keys(schema.value.fields) ==> c in Keys(data))))
    ensures schema.Some? && schema.value.SchemaDict? && r.Err? && r != Err(SchemaNamesMismatch) ==>
      exists j :: FirstMissingAt(Keys(schema.value.fields), data, j) && r == Err(MissingKey(Keys(schema.value.fields)[j]))
  {
    if schema.Some? && schema.value.SchemaDict? && |data| > 0 then
      var cols := Keys(schema.value.fields);
      if exists k :: k in Keys(data) && k !in cols then
        var k :| k in Keys(data) && k !in cols;
        assert k in Keys(data) && k !in Keys(schema.value.fields);
        Err(SchemaNamesMismatch)
      else
        var r := SelectColumns(data, cols);
        assert r.Ok? ==> forall k :: Get(r.value, k) == Get(data, k) by {
          if r.Ok? {
            forall k
              ensures Get(r.value, k) == Get(data, k)
            {
              if k !in cols {
                assert k !in Keys(data);
                assert k !in Keys(r.value);
              }
            }
          }
        }
        r
    else Ok(data)
  }

  // ---------------------------------------------------------------------------
  // Orientation of a sequence of sequences
  // ---------------------------------------------------------------------------

  datatype Orient = Row | Col

  /** `{type(value) for value in first_element if value is not None}`. */
  function NonNoneTypes(row: seq<PyValue>): set<PyType> {
    set v | v in row && v != PyNone :: TypeOf(v)
  }

  /** The row types with int dropped when float is also present. */
  function RowTypes(row: seq<PyValue>): set<PyType> {
    var s := NonNoneTypes(row);
    if IntType in s && FloatType in s then s - {IntType} else s
  }

  /** The first row resolves to one dtype: all its non-None values share a type, or they are
      ints and floats. */
  predicate SingleDtype(row: seq<PyValue>) {
    |RowTypes(row)| == 1
  }

  lemma SingletonSet<T>(s: set<T>, x: T)
    requires x in s
    ensures |s| == 1 <==> s == {x}
  {
    var r := s - {x};
    assert s == {x} + r && {x} * r == {};
    assert |s| == 1 + |r|;
  }

  lemma {:induction false} SingleDtypeMeaning(row: seq<PyValue>)
    ensures SingleDtype(row) <==> (exists t :: NonNoneTypes(row) == {t}) || NonNoneTypes(row) == {IntType, FloatType}
  {
    var s := NonNoneTypes(row);
    if IntType in s && FloatType in s {
      SingletonSet(s - {IntType}, FloatType);
      if s - {IntType} == {FloatType} {
        forall t | t in s
          ensures t == IntType || t == FloatType
        {
          if t != IntType {
            assert t in s - {IntType};
          }
        }
        assert s == {IntType, FloatType};
      }
      assert forall t :: s == {t} ==> IntType == t && FloatType == t;
    } else {
      if |s| == 1 {
        var t :| t in s;
        SingletonSet(s, t);
      }
      if exists t :: s == {t} {
        var t :| s == {t};
        SingletonSet(s, t);
      }
    }
  }

  /** `len(schema)`, with an absent schema as None. */
  function SchemaLength(schema: Option<SchemaDefinition>): Option<nat> {
    match schema
    case None => None
    case Some(SchemaDict(fields)) => Some(|fields|)
    case Some(SchemaList(entries)) => Some(|entries|)
  }

  /** The orientation `_sequence_of_sequence_to_pydf` infers when none is given. */
  function InferOrient(firstRow: seq<PyValue>, schemaLen: Option<nat>, dataLen: nat): (o: Orient)
    ensures |firstRow| > 1000 ==> (o == Col <==> schemaLen.Some? && 0 < schemaLen.value == dataLen)
    ensures |firstRow| <= 1000 && (schemaLen.None? || schemaLen.value == 0 || schemaLen.value == dataLen) ==> (o == Col <==> SingleDtype(firstRow))
    ensures |firstRow| <= 1000 && schemaLen.Some? && schemaLen.value != 0 && schemaLen.value != dataLen ==> o == Row
  {
    if |firstRow| > 1000 then
      if schemaLen.Some? && schemaLen.value > 0 && schemaLen.value == dataLen then Col else Row
    else if (schemaLen.Some? && schemaLen.value == dataLen) || schemaLen.None? || schemaLen.value == 0 then
      if SingleDtype(firstRow) then Col else Row
    else Row
  }

  /** The orientation used: the given one when it is "row" or "col", the inferred one when
      none is given, a ValueError for any other string. */
  function SequenceOrient(orient: Option<string>, firstRow: seq<PyValue>, schemaLen: Option<nat>, dataLen: nat): (r: Result<Orient, ConstructionError>)
    ensures orient == Some("row") ==> r == Ok(Row)
    ensures orient == Some("col") ==> r == Ok(Col)
    ensures orient.None? ==> r == Ok(InferOrient(firstRow, schemaLen, dataLen))
    ensures r.Err? <==> orient.Some? && orient.value != "row" && orient.value != "col"
    ensures r.Err? ==> r.error == InvalidOrient(orient.value)
  {
    match orient
    case None => Ok(InferOrient(firstRow, schemaLen, dataLen))
    case Some(o) => if o == "row" then Ok(Row) else if o == "col" then Ok(Col) else Err(InvalidOrient(o))
  }

  /** A row of ints and floats is one Float64 column's worth; ints and bools are not. */
  lemma MixedNumericRowIsColumn()
    ensures InferOrient([PyInt(1), PyFloat("2.5"), PyNone], None, 3) == Col
    ensures InferOrient([PyInt(1), PyBool(true)], None, 2) == Row
  {
    var r1 := [PyInt(1), PyFloat("2.5"), PyNone];
    assert NonNoneTypes(r1) == {IntType, FloatType} by {
      assert r1[0] in r1 && r1[1] in r1;
    }
    SingleDtypeMeaning(r1);
    var r2 := [PyInt(1), PyBool(true)];
    assert NonNoneTypes(r2) == {IntType, BoolType} by {
      assert r2[0] in r2 && r2[1] in r2;
    }
    assert RowTypes(r2) == {IntType, BoolType};
    assert |{IntType, BoolType}| == 2;
  }

  // ---------------------------------------------------------------------------
  // numpy_to_pydf: the number of columns of an array
  // ---------------------------------------------------------------------------

  /** A numpy array as far as its column count depends on it: the shape of a plain array, or
      the field names and field shapes of a structured one. */
  datatype NumpyArray = Plain(shape: seq<nat>) | Structured(fields: seq<(string, seq<nat>)>)

  /** The column count, the orientation after inference, and the length of the schema in
      force after a structured array's field names replaced a missing one. */
  datatype NumpyLayout = NumpyLayout(columns: nat, orient: Option<string>, schemaLen: Option<nat>)

  /** The position of the first field with more than two dimensions, if any. */
  function FirstDeepField(fields: seq<(string, seq<nat>)>): (r: Option<nat>)
    ensures r.Some? ==> r.value < |fields| && |fields[r.value].1| > 2 && forall i :: 0 <= i < r.value ==> |fields[i].1| <= 2
    ensures r.None? ==> forall i :: 0 <= i < |fields| ==> |fields[i].1| <= 2
  {
    if |fields| == 0 then None
    else if |fields[0].1| > 2 then Some(0)
    else match FirstDeepField(fields[1..])
      case Some(j) => Some(j + 1)
      case None => None
  }

  /** The column count of a plain array: shape (0,) has none, a 1-D array one, a 2-D array
      its second axis by row and its first by column, the first when no orientation is given
      but a schema as long as the first axis is; any other rank is an error. */
  function PlainColumns(shape: seq<nat>, schemaLen: Option<nat>, orient: Option<string>): (r: Result<(nat, Option<string>), ConstructionError>)
    ensures |shape| == 0 || |shape| > 2 <==> r == Err(TooManyDimensions(shape))
    ensures shape == [0] ==> r == Ok((0, orient))
    ensures |shape| == 1 && shape != [0] ==> r == Ok((1, orient))
    ensures |shape| == 2 && orient == Some("row") ==> r == Ok((shape[1], orient))
    ensures |shape| == 2 && orient == Some("col") ==> r == Ok((shape[0], orient))
    ensures |shape| == 2 && orient.None? && schemaLen == Some(shape[0]) ==> r == Ok((shape[0], Some("col")))
    ensures |shape| == 2 && orient.None? && schemaLen != Some(shape[0]) ==> r == Ok((shape[1], Some("row")))
    ensures |shape| == 2 && orient.Some? && orient.value != "row" && orient.value != "col" ==> r == Err(InvalidOrient(orient.value))
  {
    if shape == [0] then Ok((0, orient))
    else if |shape| == 1 then Ok((1, orient))
    else if |shape| == 2 then
      if orient.None? && schemaLen.None? then Ok((shape[1], Some("row")))
      else if orient.None? then
        if schemaLen.value == shape[0] then Ok((shape[0], Some("col"))) else Ok((shape[1], Some("row")))
      else if orient.value == "row" then Ok((shape[1], orient))
      else if orient.value == "col" then Ok((shape[0], orient))
      else Err(InvalidOrient(orient.value))
    else Err(TooManyDimensions(shape))
  }

  /** `numpy_to_pydf` up to the schema unpacking: a ValueError for a structured field with
      more than two dimensions or a schema whose length is not the column count. */
  function NumpyColumns(arr: NumpyArray, schemaLen: Option<nat>, orient: Option<string>): (r: Result<NumpyLayout, ConstructionError>)
    ensures arr.Structured? && FirstDeepField(arr.fields).Some? ==> r == Err(StructuredTooDeep(arr.fields[FirstDeepField(arr.fields).value].0))
    ensures arr.Structured? && r.Ok? ==> r.value.columns == |arr.fields| && r.value.orient == Some("col")
    ensures arr.Structured? && FirstDeepField(arr.fields).None? && (schemaLen.None? || schemaLen == Some(0)) ==> r.Ok?
    ensures arr.Plain? && PlainColumns(arr.shape, schemaLen, orient).Err? ==> r == Err(PlainColumns(arr.shape, schemaLen, orient).error)
    ensures arr.Plain? && r.Ok? ==> (r.value.columns, r.value.orient) == PlainColumns(arr.shape, schemaLen, orient).value
    ensures r.Ok? ==> r.value.schemaLen.None? || r.value.schemaLen.value == r.value.columns
    ensures arr.Structured? ==> (r == Err(SchemaDimensionMismatch) <==> FirstDeepField(arr.fields).None? && schemaLen.Some? && 0 < schemaLen.value != |arr.fields|)
    ensures arr.Plain? ==> (r == Err(SchemaDimensionMismatch) <==> PlainColumns(arr.shape, schemaLen, orient).Ok? && schemaLen.Some? && schemaLen.value != PlainColumns(arr.shape, schemaLen, orient).value.0)
  {
    match arr
    case Structured(fields) =>
      (match FirstDeepField(fields)
       case Some(j) => Err(StructuredTooDeep(fields[j].0))
       case None =>
         var schema := if schemaLen.None? || schemaLen == Some(0) then Some(|fields|) else schemaLen;
         if schema.value != |fields| then Err(SchemaDimensionMismatch)
         else Ok(NumpyLayout(|fields|, Some("col"), schema)))
    case Plain(shape) =>
      match PlainColumns(shape, schemaLen, orient)
      case Err(e) => Err(e)
      case Ok((n, o)) =>
        if schemaLen.Some? && schemaLen.value != n then Err(SchemaDimensionMismatch)
        else Ok(NumpyLayout(n, o, schemaLen))
  }

  /** A 3x4 array: a 3-name schema makes its rows columns, no schema keeps 4 columns; a cube
      is refused, and so is a 2-name schema for a 1-D array. */
  lemma NumpyColumnExamples()
    ensures NumpyColumns(Plain([3, 4]), Some(3), None) == Ok(NumpyLayout(3, Some("col"), Some(3)))
    ensures NumpyColumns(Plain([3, 4]), None, None) == Ok(NumpyLayout(4, Some("row"), None))
    ensures NumpyColumns(Plain([2, 2, 2]), None, None) == Err(TooManyDimensions([2, 2, 2]))
    ensures NumpyColumns(Plain([5]), Some(2), None) == Err(SchemaDimensionMismatch)
  {
  }
}
