/**
 * Column names and dtypes from a schema argument (`_unpack_schema`), and the
 * completion of a partial schema with Unknown (`include_unknowns`).
 */
module Schema {
  import opened Wrappers
  import opened DataTypes
  import opened PyValues

  // ---------------------------------------------------------------------------
  // Default column names
  // ---------------------------------------------------------------------------

  function DigitChar(d: nat): char
    requires d < 10
  {
    "0123456789"[d]
  }

  function DigitValue(c: char): nat {
    if '0' <= c <= '9' then (c as int - '0' as int) else 0
  }

  /** The decimal text of n, as an f-string prints it. */
  function Decimal(n: nat): (s: string)
    ensures |s| > 0
  {
    if n < 10 then [DigitChar(n)] else Decimal(n / 10) + [DigitChar(n % 10)]
  }

  function ParseDecimal(s: string): nat {
    if |s| == 0 then 0 else 10 * ParseDecimal(s[..|s| - 1]) + DigitValue(s[|s| - 1])
  }

  /** Reading the decimal text back gives the number. */
  lemma {:induction false} DecimalRoundTrip(n: nat)
    ensures ParseDecimal(Decimal(n)) == n
  {
    if n >= 10 {
      var s := Decimal(n);
      assert s[..|s| - 1] == Decimal(n / 10);
      DecimalRoundTrip(n / 10);
    }
  }

  /** `f"column_{i}"`. */
  function DefaultName(i: nat): string {
    "column_" + Decimal(i)
  }

  /** The default names are all different. */
  lemma DefaultNameInjective(i: nat, j: nat)
    requires DefaultName(i) == DefaultName(j)
    ensures i == j
  {
    assert DefaultName(i)[7..] == Decimal(i) && DefaultName(j)[7..] == Decimal(j);
    DecimalRoundTrip(i);
    DecimalRoundTrip(j);
  }

  // ---------------------------------------------------------------------------
  // Schemas
  // ---------------------------------------------------------------------------

  /** An element of a schema list: a bare name, or a (name, dtype) pair whose dtype may be None. */
  datatype SchemaEntry = Name(name: string) | Typed(name: string, dtype: Option<DataType>)

  /** The schema argument: a dict from names to dtypes, or a list of entries. */
  datatype SchemaDefinition = SchemaDict(fields: Dict<Option<DataType>>) | SchemaList(entries: seq<SchemaEntry>)

  /** The schema as a list of entries: a dict contributes its items as pairs; no schema is empty. */
  function Entries(schema: Option<SchemaDefinition>): (es: seq<SchemaEntry>)
    ensures schema.Some? && schema.value.SchemaDict? ==>
      |es| == |schema.value.fields| &&
      forall i :: 0 <= i < |es| ==> es[i] == Typed(schema.value.fields[i].0, schema.value.fields[i].1)
  {
    match schema
    case None => []
    case Some(SchemaDict(d)) => seq(|d|, i requires 0 <= i < |d| => Typed(d[i].0, d[i].1))
    case Some(SchemaList(es)) => es
  }

  /** The name of entry i: an empty bare name is replaced by the default; a pair's name is kept. */
  function EntryName(e: SchemaEntry, i: nat): string {
    match e
    case Name(c) => if c == "" then DefaultName(i) else c
    case Typed(c, _) => c
  }

  /** The column names: one per entry, or the n_expected default names when there is none. */
  function UnpackNames(entries: seq<SchemaEntry>, nExpected: Option<nat>): (names: seq<string>)
    ensures |entries| > 0 ==> |names| == |entries|
  {
    var given := seq(|entries|, i requires 0 <= i < |entries| => EntryName(entries[i], i));
    if |given| == 0 && nExpected.Some? && nExpected.value > 0 then seq(nExpected.value, i requires 0 <= i => DefaultName(i))
    else given
  }

  /** With no schema, n_expected > 0 gives the default names column_0 ... column_{n-1}, all
      different, each carrying its own position; no schema and no count give no names. */
  lemma DefaultNames(n: nat)
    ensures var names := UnpackNames([], Some(n));
      && |names| == n
      && Distinct(names)
      && forall i :: 0 <= i < n ==> names[i][..7] == "column_" && ParseDecimal(names[i][7..]) == i
    ensures UnpackNames([], None) == []
  {
    var names := UnpackNames([], Some(n));
    forall i | 0 <= i < n
      ensures names[i][..7] == "column_" && ParseDecimal(names[i][7..]) == i
    {
      assert names[i] == DefaultName(i);
      DecimalRoundTrip(i);
    }
  }

  /** The zip of the names with the lookup names, keeping pairs whose lookup name is non-empty.
      Lookup names beyond the column names pair with None, a key no lookup asks for. */
  function LookupPairs(names: seq<string>, lookupNames: seq<string>, n: nat): seq<(string, string)>
    requires n <= |names| && n <= |lookupNames|
  {
    if n == 0 then []
    else LookupPairs(names, lookupNames, n - 1) + LookupEntry(names[n - 1], lookupNames[n - 1])
  }

  /** The pair a column contributes to `lookup`: none when its lookup name is empty. */
  function LookupEntry(name: string, lookupName: string): seq<(string, string)> {
    if lookupName != "" then [(name, lookupName)] else []
  }

  function Min(a: nat, b: nat): nat {
    if a < b then a else b
  }

  /** `lookup`: column name to lookup name. */
  function Lookup(names: seq<string>, lookupNames: seq<string>): Dict<string> {
    FromPairs(LookupPairs(names, lookupNames, Min(|names|, |lookupNames|)))
  }

  /** With distinct column names, a column maps to the lookup name at its own position when
      that one is non-empty, and is absent from the lookup otherwise. */
  lemma LookupAt(names: seq<string>, lookupNames: seq<string>, i: int)
    requires Distinct(names) && 0 <= i < |names| && i < |lookupNames|
    ensures Get(Lookup(names, lookupNames), names[i]) == if lookupNames[i] != "" then Some(lookupNames[i]) else None
  {
    LookupPairsAt(names, lookupNames, Min(|names|, |lookupNames|), i);
  }

  lemma {:induction false} LookupPairsAt(names: seq<string>, lookupNames: seq<string>, n: nat, i: int)
    requires n <= |names| && n <= |lookupNames| && 0 <= i < |names|
    requires forall j :: 0 <= j < n && j != i ==> names[j] != names[i]
    ensures LastValue(LookupPairs(names, lookupNames, n), names[i]) == if i < n && lookupNames[i] != "" then Some(lookupNames[i]) else None
  {
    if n > 0 {
      LookupPairsAt(names, lookupNames, n - 1, i);
      var ext := LookupEntry(names[n - 1], lookupNames[n - 1]);
      LastValueExt(LookupPairs(names, lookupNames, n - 1), ext, names[i]);
      assert i != n - 1 ==> names[n - 1] != names[i];
    }
  }

  /** The last pair with key k after appending at most one pair. */
  lemma LastValueExt<V>(prev: seq<(string, V)>, ext: seq<(string, V)>, k: string)
    requires |ext| <= 1
    ensures LastValue(prev + ext, k) == if |ext| == 1 && ext[0].0 == k then Some(ext[0].1) else LastValue(prev, k)
  {
    if |ext| == 0 {
      assert prev + ext == prev;
    } else {
      LastValueSnoc(prev, ext[0], k);
      assert ext == [ext[0]];
    }
  }

  function Key(e: SchemaEntry, lookup: Dict<string>): string {
    GetOr(lookup, e.name, e.name)
  }

  /** The (key, dtype) pairs of the first n entries: pairs with a dtype, keyed by their lookup name. */
  function DtypePairs(entries: seq<SchemaEntry>, lookup: Dict<string>, n: nat): seq<(string, DataType)>
    requires n <= |entries|
  {
    if n == 0 then []
    else
      var e := entries[n - 1];
      DtypePairs(entries, lookup, n - 1) + (if e.Typed? && e.dtype.Some? then [(Key(e, lookup), e.dtype.value)] else [])
  }

  /** `column_dtypes` before the overrides. */
  function SchemaDtypes(entries: seq<SchemaEntry>, lookup: Dict<string>): Dict<DataType> {
    FromPairs(DtypePairs(entries, lookup, |entries|))
  }

  /** A (name, dtype) pair with a dtype, keyed by k. */
  predicate RecordedUnder(e: SchemaEntry, lookup: Dict<string>, k: string) {
    e.Typed? && e.dtype.Some? && Key(e, lookup) == k
  }

  /** Among the first n entries, the last one recorded under k has dtype t. */
  predicate LastRecord(entries: seq<SchemaEntry>, lookup: Dict<string>, k: string, t: DataType, n: nat)
    requires n <= |entries|
  {
    exists i :: 0 <= i < n && RecordedUnder(entries[i], lookup, k) && entries[i].dtype == Some(t) &&
      forall j :: i < j < n ==> !RecordedUnder(entries[j], lookup, k)
  }

  /** A key has a dtype exactly when some pair with a non-None dtype is keyed by it, and the
      dtype is that of the last such pair. */
  lemma SchemaDtypesMeaning(entries: seq<SchemaEntry>, lookup: Dict<string>, k: string)
    ensures var d := Get(SchemaDtypes(entries, lookup), k);
      && (d.Some? <==> exists i :: 0 <= i < |entries| && RecordedUnder(entries[i], lookup, k))
      && (d.Some? ==> LastRecord(entries, lookup, k, d.value, |entries|))
  {
    DtypePairsMeaning(entries, lookup, |entries|, k);
  }

  lemma {:induction false} DtypePairsMeaning(entries: seq<SchemaEntry>, lookup: Dict<string>, n: nat, k: string)
    requires n <= |entries|
    ensures var d := LastValue(DtypePairs(entries, lookup, n), k);
      && (d.Some? <==> exists i :: 0 <= i < n && RecordedUnder(entries[i], lookup, k))
      && (d.Some? ==> LastRecord(entries, lookup, k, d.value, n))
  {
    if n > 0 {
      var e := entries[n - 1];
      var prev := DtypePairs(entries, lookup, n - 1);
      if RecordedUnder(e, lookup, k) {
        LastValueSnoc(prev, (Key(e, lookup), e.dtype.value), k);
        assert LastRecord(entries, lookup, k, e.dtype.value, n) by {
          assert RecordedUnder(entries[n - 1], lookup, k) && entries[n - 1].dtype == Some(e.dtype.value);
        }
      } else {
        DtypePairsMeaning(entries, lookup, n - 1, k);
        assert LastValue(DtypePairs(entries, lookup, n), k) == LastValue(prev, k) by {
          if e.Typed? && e.dtype.Some? {
            LastValueSnoc(prev, (Key(e, lookup), e.dtype.value), k);
          } else {
            assert DtypePairs(entries, lookup, n) == prev;
          }
        }
        NotRecordedLast(entries, lookup, k, n, LastValue(prev, k));
      }
    }
  }

  /** Entry n - 1 is not recorded under k: the answer for n entries is the one for n - 1. */
  lemma NotRecordedLast(entries: seq<SchemaEntry>, lookup: Dict<string>, k: string, n: nat, d: Option<DataType>)
    requires 0 < n <= |entries| && !RecordedUnder(entries[n - 1], lookup, k)
    requires d.Some? <==> exists i :: 0 <= i < n - 1 && RecordedUnder(entries[i], lookup, k)
    requires d.Some? ==> LastRecord(entries, lookup, k, d.value, n - 1)
    ensures d.Some? <==> exists i :: 0 <= i < n && RecordedUnder(entries[i], lookup, k)
    ensures d.Some? ==> LastRecord(entries, lookup, k, d.value, n)
  {
    if d.Some? {
      var i :| 0 <= i < n - 1 && RecordedUnder(entries[i], lookup, k) && entries[i].dtype == Some(d.value) &&
        forall j :: i < j < n - 1 ==> !RecordedUnder(entries[j], lookup, k);
      assert forall j :: i < j < n ==> !RecordedUnder(entries[j], lookup, k);
    }
  }

  // ---------------------------------------------------------------------------
  // _unpack_schema
  // ---------------------------------------------------------------------------

  /** dtypes is base updated with the entries of ov: the keys of ov come first in lookups, and
      the keys new to base follow base's keys in ov's order. */
  ghost predicate UpdatedBy(dtypes: Dict<DataType>, base: Dict<DataType>, ov: Dict<DataType>) {
    && WellFormed(dtypes)
    && Keys(dtypes) == Keys(base) + NotIn(Keys(ov), Keys(base))
    && forall k :: Get(dtypes, k) == if k in Keys(ov) then Get(ov, k) else Get(base, k)
  }

  /** The keys of the first i + 1 entries of a dict: the key of entry i is new. */
  lemma KeysStep(overrides: Dict<DataType>, i: int)
    requires WellFormed(overrides) && 0 <= i < |overrides|
    ensures Keys(overrides[..i + 1]) == Keys(overrides[..i]) + [overrides[i].0]
    ensures overrides[i].0 !in Keys(overrides[..i])
  {
    assert Keys(overrides[..i + 1])[..i] == Keys(overrides[..i]);
    forall j | 0 <= j < i
      ensures Keys(overrides[..i])[j] != overrides[i].0
    {
      assert Keys(overrides[..i])[j] == Keys(overrides)[j];
    }
  }

  /** One more entry of the update. */
  lemma UpdateStep(dtypes: Dict<DataType>, base: Dict<DataType>, overrides: Dict<DataType>, i: int)
    requires WellFormed(overrides) && 0 <= i < |overrides|
    requires UpdatedBy(dtypes, base, overrides[..i])
    ensures UpdatedBy(Set(dtypes, overrides[i].0, overrides[i].1), base, overrides[..i + 1])
  {
    var (k, v) := overrides[i];
    var prev := overrides[..i];
    assert overrides[..i + 1] == prev + [(k, v)];
    KeysStep(overrides, i);
    UpdateKeys(dtypes, base, Keys(prev), k, v);
    UpdateGets(dtypes, base, prev, k, v);
  }

  lemma UpdateKeys(dtypes: Dict<DataType>, base: Dict<DataType>, prevKeys: seq<string>, k: string, v: DataType)
    requires WellFormed(dtypes) && k !in prevKeys
    requires Keys(dtypes) == Keys(base) + NotIn(prevKeys, Keys(base))
    ensures WellFormed(Set(dtypes, k, v))
    ensures Keys(Set(dtypes, k, v)) == Keys(base) + NotIn(prevKeys + [k], Keys(base))
  {
    var ks, bs := Keys(dtypes), Keys(base);
    var added := NotIn(prevKeys, bs);
    NotInSnoc(prevKeys, k, bs);
    if k in bs {
      assert k in ks;
    } else {
      assert k !in added;
      DistinctSnoc(ks, k);
      assert bs + (added + [k]) == ks + [k];
    }
  }

  lemma UpdateGets(dtypes: Dict<DataType>, base: Dict<DataType>, prev: Dict<DataType>, k: string, v: DataType)
    requires k !in Keys(prev) && Keys(prev + [(k, v)]) == Keys(prev) + [k]
    requires forall k' :: Get(dtypes, k') == if k' in Keys(prev) then Get(prev, k') else Get(base, k')
    ensures forall k' :: Get(Set(dtypes, k, v), k') == if k' in Keys(prev + [(k, v)]) then Get(prev + [(k, v)], k') else Get(base, k')
  {
    forall k' ensures Get(Set(dtypes, k, v), k') == if k' in Keys(prev + [(k, v)]) then Get(prev + [(k, v)], k') else Get(base, k') {
      GetSnoc(prev, k, v, k');
    }
  }

  /** `_unpack_schema`: the column names and the dtype lookup. The overrides are written over
      the schema's dtypes entry by entry, as `dict.update` does; with a non-empty schema and
      `include_overrides_in_columns`, override-only names are appended to the column names. */
  method UnpackSchema(schema: Option<SchemaDefinition>, overrides: Dict<DataType>, nExpected: Option<nat>,
                      lookupNames: seq<string>, includeOverrides: bool)
    returns (names: seq<string>, dtypes: Dict<DataType>)
    requires WellFormed(overrides)
    ensures var entries := Entries(schema);
      var given := UnpackNames(entries, nExpected);
      var base := SchemaDtypes(entries, Lookup(given, lookupNames));
      && WellFormed(dtypes)
      && (forall k :: Get(dtypes, k) == if k in Keys(overrides) then Get(overrides, k) else Get(base, k))
      && Keys(dtypes) == Keys(base) + NotIn(Keys(overrides), Keys(base))
      && names == given + (if |overrides| > 0 && |entries| > 0 && includeOverrides then NotIn(Keys(dtypes), given) else [])
  {
    var entries := Entries(schema);
    names := UnpackNames(entries, nExpected);
    var base := SchemaDtypes(entries, Lookup(names, lookupNames));
    dtypes := base;
    if |overrides| > 0 {
      dtypes := ApplyOverrides(base, overrides);
      if |entries| > 0 && includeOverrides {
        names := names + NotIn(Keys(dtypes), names);
      }
    } else {
      assert Keys(overrides) == [];
      assert forall k :: Get(dtypes, k) == if k in Keys(overrides) then Get(overrides, k) else Get(base, k);
    }
  }

  /** `column_dtypes.update(schema_overrides)`: the overrides are set one entry at a time. */
  method ApplyOverrides(base: Dict<DataType>, overrides: Dict<DataType>) returns (dtypes: Dict<DataType>)
    requires WellFormed(overrides) && WellFormed(base)
    ensures UpdatedBy(dtypes, base, overrides)
  {
    dtypes := base;
    assert overrides[..0] == [];
    for i := 0 to |overrides|
      invariant UpdatedBy(dtypes, base, overrides[..i])
    {
      UpdateStep(dtypes, base, overrides, i);
      dtypes := Set(dtypes, overrides[i].0, overrides[i].1);
    }
    assert overrides[..|overrides|] == overrides;
  }

  // ---------------------------------------------------------------------------
  // include_unknowns
  // ---------------------------------------------------------------------------

  /** `schema.get(col, Unknown) or Unknown`: a missing or None dtype is Unknown. */
  function Resolve(schema: Dict<Option<DataType>>, col: string): DataType {
    var g := Get(schema, col);
    if g.Some? && g.value.Some? then g.value.value else Unknown
  }

  /** `include_unknowns`: exactly the given columns, in order of first occurrence, each with its
      schema dtype or Unknown. */
  function IncludeUnknowns(schema: Dict<Option<DataType>>, cols: seq<string>): (r: Dict<DataType>)
    ensures Keys(r) == Dedup(cols) && WellFormed(r)
    ensures forall c :: Get(r, c) == if c in cols then Some(Resolve(schema, c)) else None
  {
    var ps := seq(|cols|, i requires 0 <= i < |cols| => (cols[i], Resolve(schema, cols[i])));
    assert Keys(ps) == cols;
    forall c | c in cols
      ensures LastValue(ps, c) == Some(Resolve(schema, c))
    {
      LastValueKeyed(ps, c, Resolve(schema, c));
    }
    FromPairs(ps)
  }
}
