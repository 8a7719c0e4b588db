/** The `expr.over(keys)` window evaluator: rows are grouped by a partition key,
    the inner expression runs once per group, and the per-group results are
    written back onto the rows of the group, in the caller's row order.

    Two layers are modelled. The reference layer (Members, Pos, RefReduce,
    RefMap) says what row i receives. The evaluator layer builds a grouping map
    (HashGroups for the hashed path, Runs for the sorted fast path), runs the
    inner expression per group (GroupOutputs) and spreads the results back
    (Materialize) or concatenates them (OverFlatten). The lemmas connect the
    two layers. */
module Window {
  import opened Wrappers

  /** One entry of a grouping map: a key and the rows that carry it. */
  datatype Group<K> = Group(key: K, rows: seq<nat>)

  /** How the grouping map is built: hashing rows, or cutting runs of a column flagged as sorted. */
  datatype Mode = Hashed | Sorted

  /** The one error of the evaluator: per-group outputs that do not fit the rows. */
  datatype WindowError = ShapeMismatch

  predicate Increasing(s: seq<nat>) {
    forall a, b :: 0 <= a < b < |s| ==> s[a] < s[b]
  }

  // ---------------------------------------------------------------------------
  // Reference layer
  // ---------------------------------------------------------------------------

  /** The rows whose key is k, in row order. A null key is a key like any other. */
  function Members<K(==)>(keys: seq<K>, k: K): (r: seq<nat>)
    ensures forall j :: 0 <= j < |r| ==> r[j] < |keys| && keys[r[j]] == k
  {
    if keys == [] then []
    else
      var n := |keys| - 1;
      var rest := Members(keys[..n], k);
      if keys[n] == k then rest + [n] else rest
  }

  /** Position of row i inside its own group: the number of earlier rows with the same key. */
  function Pos<K(==)>(keys: seq<K>, i: nat): nat
    requires i < |keys|
  {
    |Members(keys[..i], keys[i])|
  }

  predicate RowsBelow(rows: seq<nat>, n: nat) {
    forall j :: 0 <= j < |rows| ==> rows[j] < n
  }

  /** The values at the given rows, in the order of the rows. */
  function Select<V>(vals: seq<V>, rows: seq<nat>): (r: seq<V>)
    requires RowsBelow(rows, |vals|)
    ensures |r| == |rows|
    ensures forall j :: 0 <= j < |rows| ==> r[j] == vals[rows[j]]
  {
    seq(|rows|, j requires 0 <= j < |rows| => vals[rows[j]])
  }

  /** The values of the group with key k, in row order. */
  function GroupValues<K(==), V(!new)>(keys: seq<K>, vals: seq<V>, k: K): seq<V>
    requires |keys| == |vals|
  {
    Select(vals, Members(keys, k))
  }

  /** Meaning of a reducing `agg.over(keys)`: each row receives the aggregate of its group. */
  function RefReduce<K(==), V(!new), R>(keys: seq<K>, vals: seq<V>, agg: seq<V> -> R): seq<R>
    requires |keys| == |vals|
  {
    seq(|keys|, i requires 0 <= i < |keys| => agg(GroupValues(keys, vals, keys[i])))
  }

  /** An inner expression that returns as many values as it is given (shift, rank, cumulative eval, ...). */
  ghost predicate LengthPreserving<V(!new), W>(f: seq<V> -> seq<W>) {
    forall s :: |f(s)| == |s|
  }

  /** Meaning of a row-preserving `f.over(keys)`: row i receives the entry of f(its group)
      at its own position in the group. */
  function RefMap<K(==), V(!new), W>(keys: seq<K>, vals: seq<V>, f: seq<V> -> seq<W>): seq<W>
    requires |keys| == |vals|
    requires LengthPreserving(f)
  {
    seq(|keys|, i requires 0 <= i < |keys| =>
      PosInMembers(keys, i);
      f(GroupValues(keys, vals, keys[i]))[Pos(keys, i)])
  }

  lemma {:induction false} MembersOfAbsent<K>(keys: seq<K>, k: K)
    requires forall i :: 0 <= i < |keys| ==> keys[i] != k
    ensures Members(keys, k) == []
    decreases |keys|
  {
    if keys != [] {
      MembersOfAbsent(keys[..|keys| - 1], k);
    }
  }

  /** Appending a row adds it to the members of its own key and to no other. */
  lemma MembersSnoc<K>(prefix: seq<K>, k: K, key: K)
    ensures Members(prefix + [k], key) == if key == k then Members(prefix, key) + [|prefix|] else Members(prefix, key)
  {
    assert (prefix + [k])[..|prefix|] == prefix;
  }

  /** The members of k are every row with key k, each once, in increasing row order. */
  lemma {:induction false} MembersComplete<K>(keys: seq<K>, k: K)
    ensures forall i :: 0 <= i < |keys| && keys[i] == k ==> i in Members(keys, k)
    ensures Increasing(Members(keys, k))
    decreases |keys|
  {
    if keys != [] {
      var n := |keys| - 1;
      var prefix := keys[..n];
      assert keys == prefix + [keys[n]];
      MembersComplete(prefix, k);
      MembersSnoc(prefix, keys[n], k);
      forall i | 0 <= i < |keys| && keys[i] == k
        ensures i in Members(keys, k)
      {
        if i < n {
          assert prefix[i] == k;
        }
      }
    }
  }

  /** Members of a prefix are a prefix of the members. */
  lemma {:induction false} MembersPrefix<K>(keys: seq<K>, m: nat, k: K)
    requires m <= |keys|
    ensures Members(keys[..m], k) <= Members(keys, k)
    decreases |keys|
  {
    if m < |keys| {
      var n := |keys| - 1;
      var prefix := keys[..n];
      assert keys == prefix + [keys[n]];
      assert prefix[..m] == keys[..m];
      MembersPrefix(prefix, m, k);
      MembersSnoc(prefix, keys[n], k);
    } else {
      assert keys[..m] == keys;
    }
  }

  /** Row i sits at index Pos(keys, i) of the members of its key. */
  lemma PosInMembers<K>(keys: seq<K>, i: nat)
    requires i < |keys|
    ensures Pos(keys, i) < |Members(keys, keys[i])|
    ensures Members(keys, keys[i])[Pos(keys, i)] == i
  {
    var k := keys[i];
    assert keys[..i + 1] == keys[..i] + [k];
    MembersSnoc(keys[..i], k, k);
    MembersPrefix(keys, i + 1, k);
  }

  /** Row i of a group's values is the value at the i-th member row. */
  lemma GroupValuesAt<K, V(!new)>(keys: seq<K>, vals: seq<V>, k: K, j: nat)
    requires |keys| == |vals| && j < |Members(keys, k)|
    ensures |GroupValues(keys, vals, k)| == |Members(keys, k)|
    ensures GroupValues(keys, vals, k)[j] == vals[Members(keys, k)[j]]
  {
  }

  /** Row i of the reference reduction is the aggregate of the values of its group. */
  lemma RefReduceAt<K, V(!new), R>(keys: seq<K>, vals: seq<V>, agg: seq<V> -> R, i: nat, gv: seq<V>)
    requires |keys| == |vals| && i < |keys| && GroupValues(keys, vals, keys[i]) == gv
    ensures |RefReduce(keys, vals, agg)| == |keys|
    ensures RefReduce(keys, vals, agg)[i] == agg(gv)
  {
  }

  /** Row i of the reference map is the entry of f(its group) at the row's position in the group. */
  lemma RefMapAt<K, V(!new), W>(keys: seq<K>, vals: seq<V>, f: seq<V> -> seq<W>, i: nat)
    requires |keys| == |vals| && LengthPreserving(f) && i < |keys|
    ensures Pos(keys, i) < |Members(keys, keys[i])|
    ensures |GroupValues(keys, vals, keys[i])| == |Members(keys, keys[i])|
    ensures RefMap(keys, vals, f)[i] == f(GroupValues(keys, vals, keys[i]))[Pos(keys, i)]
  {
    PosInMembers(keys, i);
  }

  /** Row i of the reference map, read off its group's values gv and its position p in the group. */
  lemma RefMapRow<K, V(!new), W>(keys: seq<K>, vals: seq<V>, f: seq<V> -> seq<W>, i: nat, gv: seq<V>, p: nat)
    requires |keys| == |vals| && LengthPreserving(f) && i < |keys|
    requires GroupValues(keys, vals, keys[i]) == gv && Pos(keys, i) == p
    ensures |RefMap(keys, vals, f)| == |keys| && p < |f(gv)|
    ensures RefMap(keys, vals, f)[i] == f(gv)[p]
  {
    RefMapAt(keys, vals, f, i);
  }

  /** In an increasing sequence an element has exactly one index. */
  lemma IncreasingIndex(s: seq<nat>, a: nat, b: nat)
    requires Increasing(s) && a < |s| && b < |s| && s[a] == s[b]
    ensures a == b
  {
  }

  /** Two increasing sequences with the same elements are equal. */
  lemma {:induction false} IncreasingUnique(s: seq<nat>, t: seq<nat>)
    requires Increasing(s) && Increasing(t)
    requires forall x :: x in s <==> x in t
    ensures s == t
    decreases |s|
  {
    if t != [] {
      IncreasingHeads(t, s);
    }
    if s != [] {
      IncreasingHeads(s, t);
      IncreasingTails(s, t);
      IncreasingUnique(s[1..], t[1..]);
      assert s == [s[0]] + s[1..];
      assert t == [t[0]] + t[1..];
    }
  }

  /** Two increasing sequences with the same elements start with the same element. */
  lemma IncreasingHeads(s: seq<nat>, t: seq<nat>)
    requires Increasing(s) && Increasing(t) && s != []
    requires forall x :: x in s <==> x in t
    ensures t != [] && s[0] == t[0]
  {
    assert s[0] in t;
    var b :| 0 <= b < |t| && t[b] == s[0];
    assert t[0] in s;
    var a :| 0 <= a < |s| && s[a] == t[0];
    assert s[0] <= s[a] && t[0] <= t[b];
  }

  /** Dropping a common first element keeps the elements shared. */
  lemma IncreasingTails(s: seq<nat>, t: seq<nat>)
    requires Increasing(s) && Increasing(t) && s != [] && t != [] && s[0] == t[0]
    requires forall x :: x in s <==> x in t
    ensures forall x :: x in s[1..] <==> x in t[1..]
  {
    forall x
      ensures x in s[1..] <==> x in t[1..]
    {
      if x in s[1..] {
        var a :| 1 <= a < |s| && s[a] == x;
        assert x in s;
        var b :| 0 <= b < |t| && t[b] == x;
        assert s[0] < s[a];
        assert t[1..][b - 1] == x;
      }
      if x in t[1..] {
        var b :| 1 <= b < |t| && t[b] == x;
        assert x in t;
        var a :| 0 <= a < |s| && s[a] == x;
        assert t[0] < t[b];
        assert s[1..][a - 1] == x;
      }
    }
  }

  // ---------------------------------------------------------------------------
  // Grouping maps
  // ---------------------------------------------------------------------------

  /** Index of the first group with key k. */
  function FindKey<K(==)>(gs: seq<Group<K>>, k: K): (r: Option<nat>)
    ensures r.Some? ==> r.value < |gs| && gs[r.value].key == k
    ensures r.None? ==> forall g :: 0 <= g < |gs| ==> gs[g].key != k
  {
    if gs == [] then None
    else if gs[0].key == k then Some(0)
    else match FindKey(gs[1..], k)
      case None => None
      case Some(g) => Some(g + 1)
  }

  /** Hash path step: append row i to the group of key k, opening a new group at the end if k is new. */
  function AddRow<K(==)>(gs: seq<Group<K>>, k: K, i: nat): seq<Group<K>>
  {
    match FindKey(gs, k)
    case Some(g) => gs[g := Group(k, gs[g].rows + [i])]
    case None => gs + [Group(k, [i])]
  }

  /** Hash path: groups in order of first occurrence of their key. */
  function HashGroups<K(==)>(keys: seq<K>): seq<Group<K>>
  {
    if keys == [] then []
    else
      var n := |keys| - 1;
      AddRow(HashGroups(keys[..n]), keys[n], n)
  }

  /** Sorted fast path: one group per maximal run of equal consecutive keys, found in one scan. */
  function Runs<K(==)>(keys: seq<K>): seq<Group<K>>
  {
    if keys == [] then []
    else
      var n := |keys| - 1;
      var gs := Runs(keys[..n]);
      if gs != [] && gs[|gs| - 1].key == keys[n] then
        gs[|gs| - 1 := Group(keys[n], gs[|gs| - 1].rows + [n])]
      else
        gs + [Group(keys[n], [n])]
  }

  function Grouping<K(==)>(keys: seq<K>, mode: Mode): seq<Group<K>>
  {
    match mode
    case Hashed => HashGroups(keys)
    case Sorted => Runs(keys)
  }

  /** Each group holds exactly the rows of its key, in row order, and is not empty. */
  ghost predicate ExactRows<K>(gs: seq<Group<K>>, keys: seq<K>) {
    forall g :: 0 <= g < |gs| ==> gs[g].rows == Members(keys, gs[g].key) && gs[g].rows != []
  }

  /** No key has two groups. */
  ghost predicate DistinctKeys<K>(gs: seq<Group<K>>) {
    forall g, h :: 0 <= g < h < |gs| ==> gs[g].key != gs[h].key
  }

  ghost predicate HasGroup<K>(gs: seq<Group<K>>, k: K) {
    exists g :: 0 <= g < |gs| && gs[g].key == k
  }

  /** Every key of the frame has a group. */
  ghost predicate CoversKeys<K>(gs: seq<Group<K>>, keys: seq<K>) {
    forall i :: 0 <= i < |keys| ==> HasGroup(gs, keys[i])
  }

  /** gs is the grouping map of keys: one group per distinct key, holding exactly its rows in row order. */
  ghost predicate Describes<K>(gs: seq<Group<K>>, keys: seq<K>) {
    ExactRows(gs, keys) && DistinctKeys(gs) && CoversKeys(gs, keys)
  }

  /** Groups are listed in order of their first row. */
  ghost predicate FirstOccurrenceOrder<K>(gs: seq<Group<K>>) {
    forall g, h :: 0 <= g < h < |gs| && gs[g].rows != [] && gs[h].rows != [] ==> gs[g].rows[0] < gs[h].rows[0]
  }

  /** Every row belongs to exactly one group of a grouping map, and no group holds a row twice. */
  lemma PartitionOfRows<K>(gs: seq<Group<K>>, keys: seq<K>, i: nat)
    requires Describes(gs, keys) && i < |keys|
    ensures exists g :: 0 <= g < |gs| && i in gs[g].rows
    ensures forall g, h :: 0 <= g < |gs| && 0 <= h < |gs| && i in gs[g].rows && i in gs[h].rows ==> g == h
    ensures forall g :: 0 <= g < |gs| ==> Increasing(gs[g].rows) && RowsBelow(gs[g].rows, |keys|)
  {
    assert HasGroup(gs, keys[i]);
    var g :| 0 <= g < |gs| && gs[g].key == keys[i];
    MembersComplete(keys, keys[i]);
    assert i in gs[g].rows;
    forall g | 0 <= g < |gs|
      ensures Increasing(gs[g].rows)
    {
      MembersComplete(keys, gs[g].key);
    }
  }

  /** Hash path step on a key already present: the grouping map of the longer frame. */
  lemma AddRowKnown<K>(gs0: seq<Group<K>>, prefix: seq<K>, k: K, g: nat)
    requires Describes(gs0, prefix) && FirstOccurrenceOrder(gs0)
    requires g < |gs0| && gs0[g].key == k
    ensures Describes(gs0[g := Group(k, gs0[g].rows + [|prefix|])], prefix + [k])
    ensures FirstOccurrenceOrder(gs0[g := Group(k, gs0[g].rows + [|prefix|])])
  {
    var keys := prefix + [k];
    var gs := gs0[g := Group(k, gs0[g].rows + [|prefix|])];
    forall h | 0 <= h < |gs|
      ensures gs[h].rows == Members(keys, gs[h].key) && gs[h].rows != []
    {
      MembersSnoc(prefix, k, gs[h].key);
      if h != g {
        assert gs0[h].key != gs0[g].key;
      }
    }
    forall i | 0 <= i < |keys|
      ensures HasGroup(gs, keys[i])
    {
      if i < |prefix| {
        assert keys[i] == prefix[i];
        var h :| 0 <= h < |gs0| && gs0[h].key == prefix[i];
        assert gs[h].key == keys[i];
      } else {
        assert gs[g].key == keys[i];
      }
    }
    forall h | 0 <= h < |gs|
      ensures gs[h].rows[0] == gs0[h].rows[0]
    {
    }
  }

  /** A key that has no group does not occur in the frame. */
  lemma AbsentKey<K>(gs0: seq<Group<K>>, prefix: seq<K>, k: K)
    requires CoversKeys(gs0, prefix)
    requires forall g :: 0 <= g < |gs0| ==> gs0[g].key != k
    ensures Members(prefix, k) == []
  {
    forall i | 0 <= i < |prefix|
      ensures prefix[i] != k
    {
      var h :| 0 <= h < |gs0| && gs0[h].key == prefix[i];
    }
    MembersOfAbsent(prefix, k);
  }

  lemma AddRowFreshExact<K>(gs0: seq<Group<K>>, prefix: seq<K>, k: K)
    requires ExactRows(gs0, prefix) && Members(prefix, k) == []
    ensures ExactRows(gs0 + [Group(k, [|prefix|])], prefix + [k])
  {
    var gs := gs0 + [Group(k, [|prefix|])];
    forall h | 0 <= h < |gs|
      ensures gs[h].rows == Members(prefix + [k], gs[h].key) && gs[h].rows != []
    {
      MembersSnoc(prefix, k, gs[h].key);
    }
  }

  lemma AddRowFreshCovers<K>(gs0: seq<Group<K>>, prefix: seq<K>, k: K)
    requires CoversKeys(gs0, prefix)
    ensures CoversKeys(gs0 + [Group(k, [|prefix|])], prefix + [k])
  {
    var keys := prefix + [k];
    var gs := gs0 + [Group(k, [|prefix|])];
    forall i | 0 <= i < |keys|
      ensures HasGroup(gs, keys[i])
    {
      if i < |prefix| {
        assert keys[i] == prefix[i];
        var h :| 0 <= h < |gs0| && gs0[h].key == prefix[i];
        assert gs[h].key == keys[i];
      } else {
        assert gs[|gs0|].key == keys[i];
      }
    }
  }

  lemma AddRowFreshOrder<K>(gs0: seq<Group<K>>, prefix: seq<K>, k: K)
    requires ExactRows(gs0, prefix) && FirstOccurrenceOrder(gs0)
    ensures FirstOccurrenceOrder(gs0 + [Group(k, [|prefix|])])
  {
    var gs := gs0 + [Group(k, [|prefix|])];
    forall h | 0 <= h < |gs0|
      ensures gs[h].rows[0] < |prefix|
    {
      assert gs0[h].rows == Members(prefix, gs0[h].key);
    }
  }

  /** Hash path step on a new key: a group is opened at the end. */
  lemma AddRowFresh<K>(gs0: seq<Group<K>>, prefix: seq<K>, k: K)
    requires Describes(gs0, prefix) && FirstOccurrenceOrder(gs0)
    requires forall g :: 0 <= g < |gs0| ==> gs0[g].key != k
    ensures Describes(gs0 + [Group(k, [|prefix|])], prefix + [k])
    ensures FirstOccurrenceOrder(gs0 + [Group(k, [|prefix|])])
  {
    AbsentKey(gs0, prefix, k);
    AddRowFreshExact(gs0, prefix, k);
    AddRowFreshCovers(gs0, prefix, k);
    AddRowFreshOrder(gs0, prefix, k);
  }

  /** The hash path builds the grouping map of its keys, groups in order of first occurrence. */
  lemma {:induction false} HashGroupsDescribe<K>(keys: seq<K>)
    ensures Describes(HashGroups(keys), keys)
    ensures FirstOccurrenceOrder(HashGroups(keys))
    decreases |keys|
  {
    if keys != [] {
      var n := |keys| - 1;
      var prefix := keys[..n];
      var k := keys[n];
      assert keys == prefix + [k];
      HashGroupsDescribe(prefix);
      var gs0 := HashGroups(prefix);
      match FindKey(gs0, k) {
        case Some(g) => AddRowKnown(gs0, prefix, k, g);
        case None => AddRowFresh(gs0, prefix, k);
      }
    }
  }

  /** Keys whose equal values stand in one contiguous run, as in a column known to be sorted. */
  ghost predicate Contiguous<K>(keys: seq<K>) {
    forall i, j, l :: 0 <= i < j < l < |keys| && keys[i] == keys[l] ==> keys[j] == keys[i]
  }

  lemma RunsLastKey<K>(keys: seq<K>)
    requires keys != []
    ensures Runs(keys) != [] && Runs(keys)[|Runs(keys)| - 1].key == keys[|keys| - 1]
  {
  }

  /** On contiguous keys, a key that differs from the previous row's key has not been seen before. */
  lemma ContiguousFresh<K>(keys: seq<K>)
    requires Contiguous(keys) && |keys| >= 2 && keys[|keys| - 2] != keys[|keys| - 1]
    ensures forall i :: 0 <= i < |keys| - 1 ==> keys[i] != keys[|keys| - 1]
  {
  }

  /** Sorted path, same key as the previous row: the hash path also extends the last group. */
  lemma RunsExtendLast<K>(prefix: seq<K>, k: K)
    requires HashGroups(prefix) != [] && HashGroups(prefix)[|HashGroups(prefix)| - 1].key == k
    ensures FindKey(HashGroups(prefix), k) == Some(|HashGroups(prefix)| - 1)
  {
    HashGroupsDescribe(prefix);
  }

  /** Sorted path, key differs from the previous row: on contiguous keys, the hash path opens a group too. */
  lemma RunsOpenGroup<K>(keys: seq<K>)
    requires Contiguous(keys) && keys != []
    requires var gs0 := Runs(keys[..|keys| - 1]);
      !(gs0 != [] && gs0[|gs0| - 1].key == keys[|keys| - 1])
    ensures FindKey(HashGroups(keys[..|keys| - 1]), keys[|keys| - 1]) == None
  {
    var n := |keys| - 1;
    var prefix := keys[..n];
    var k := keys[n];
    if n > 0 {
      RunsLastKey(prefix);
      ContiguousFresh(keys);
    }
    forall i | 0 <= i < |prefix|
      ensures prefix[i] != k
    {
      assert prefix[i] == keys[i];
    }
    MembersOfAbsent(prefix, k);
    HashGroupsDescribe(prefix);
    var gs0 := HashGroups(prefix);
    assert forall g :: 0 <= g < |gs0| ==> gs0[g].rows == Members(prefix, gs0[g].key) && gs0[g].rows != [];
    assert forall g :: 0 <= g < |gs0| ==> gs0[g].key != k;
  }

  /** On keys known to be sorted, the sorted fast path builds the same grouping map as the hash path. */
  lemma {:induction false} RunsAreHashGroups<K>(keys: seq<K>)
    requires Contiguous(keys)
    ensures Runs(keys) == HashGroups(keys)
    decreases |keys|
  {
    if keys != [] {
      var n := |keys| - 1;
      var prefix := keys[..n];
      assert Contiguous(prefix);
      RunsAreHashGroups(prefix);
      var gs0 := Runs(prefix);
      if gs0 != [] && gs0[|gs0| - 1].key == keys[n] {
        RunsExtendLast(prefix, keys[n]);
      } else {
        RunsOpenGroup(keys);
      }
    }
  }

  /** Every row recorded by the sorted fast path is a row of the frame. */
  lemma {:induction false} RunsRowsBelow<K>(keys: seq<K>)
    ensures forall g :: 0 <= g < |Runs(keys)| ==> RowsBelow(Runs(keys)[g].rows, |keys|)
    decreases |keys|
  {
    if keys != [] {
      var n := |keys| - 1;
      RunsRowsBelow(keys[..n]);
      var gs0 := Runs(keys[..n]);
      var gs := Runs(keys);
      forall g | 0 <= g < |gs|
        ensures RowsBelow(gs[g].rows, |keys|)
      {
        if g < |gs0| {
          assert RowsBelow(gs0[g].rows, n);
        }
      }
    }
  }

  /** Every row recorded in a grouping map is a row of the frame. */
  lemma GroupingRowsBelow<K>(keys: seq<K>, mode: Mode)
    ensures forall g :: 0 <= g < |Grouping(keys, mode)| ==> RowsBelow(Grouping(keys, mode)[g].rows, |keys|)
  {
    var gs := Grouping(keys, mode);
    match mode
    case Hashed =>
      HashGroupsDescribe(keys);
      forall g | 0 <= g < |gs|
        ensures RowsBelow(gs[g].rows, |keys|)
      {
      }
    case Sorted =>
      RunsRowsBelow(keys);
  }

  // ---------------------------------------------------------------------------
  // Runner and materializer
  // ---------------------------------------------------------------------------

  /** Index of row i in a list of rows. */
  function IndexOf(rows: seq<nat>, i: nat): (r: Option<nat>)
    ensures r.Some? ==> r.value < |rows| && rows[r.value] == i
    ensures r.None? ==> i !in rows
  {
    if rows == [] then None
    else if rows[0] == i then Some(0)
    else match IndexOf(rows[1..], i)
      case None => None
      case Some(p) => Some(p + 1)
  }

  /** The group holding row i, and the position of row i inside it. */
  function Locate<K>(gs: seq<Group<K>>, i: nat): (r: Option<(nat, nat)>)
    ensures r.Some? ==> r.value.0 < |gs| && r.value.1 < |gs[r.value.0].rows| && gs[r.value.0].rows[r.value.1] == i
    ensures r.None? ==> forall g :: 0 <= g < |gs| ==> i !in gs[g].rows
  {
    if gs == [] then None
    else match IndexOf(gs[0].rows, i)
      case Some(p) => Some((0, p))
      case None =>
        match Locate(gs[1..], i)
        case None => None
        case Some(gp) => Some((gp.0 + 1, gp.1))
  }

  /** Runs the inner expression on the values of each group. */
  function GroupOutputs<K, V(!new), W>(gs: seq<Group<K>>, vals: seq<V>, f: seq<V> -> seq<W>): (outs: seq<seq<W>>)
    requires forall g :: 0 <= g < |gs| ==> RowsBelow(gs[g].rows, |vals|)
    ensures |outs| == |gs|
    ensures forall g :: 0 <= g < |gs| ==> outs[g] == f(Select(vals, gs[g].rows))
  {
    seq(|gs|, g requires 0 <= g < |gs| => f(Select(vals, gs[g].rows)))
  }

  ghost predicate OutputsFit<K, W>(gs: seq<Group<K>>, outs: seq<seq<W>>)
    requires |outs| == |gs|
  {
    forall g :: 0 <= g < |gs| ==> |outs[g]| == |gs[g].rows|
  }

  ghost predicate RowsLocated<K>(gs: seq<Group<K>>, n: nat) {
    forall i :: 0 <= i < n ==> Locate(gs, i).Some?
  }

  /** Writes each group's output back onto the group's rows; output row i is the entry
      at row i's position in its group. Fails when an output does not fit its group. */
  function Materialize<K, W>(gs: seq<Group<K>>, outs: seq<seq<W>>, n: nat): (r: Result<seq<W>, WindowError>)
    requires |outs| == |gs|
    ensures r.Ok? <==> OutputsFit(gs, outs) && RowsLocated(gs, n)
    ensures r.Ok? ==> |r.value| == n
    ensures r.Ok? ==> forall i :: 0 <= i < n ==>
      var gp := Locate(gs, i).value; gp.1 < |outs[gp.0]| && r.value[i] == outs[gp.0][gp.1]
  {
    if exists g :: 0 <= g < |gs| && |outs[g]| != |gs[g].rows| then Err(ShapeMismatch)
    else if exists i :: 0 <= i < n && Locate(gs, i).None? then Err(ShapeMismatch)
    else Ok(seq(n, i requires 0 <= i < n && Locate(gs, i).Some? && |outs[Locate(gs, i).value.0]| == |gs[Locate(gs, i).value.0].rows| =>
           outs[Locate(gs, i).value.0][Locate(gs, i).value.1]))
  }

  /** A reducing aggregate seen as a row-preserving expression: its value repeated on every row of the group. */
  function Broadcast<V(!new), R>(agg: seq<V> -> R): (f: seq<V> -> seq<R>)
    ensures LengthPreserving(f)
    ensures forall s, j :: 0 <= j < |s| ==> f(s)[j] == agg(s)
  {
    s => seq(|s|, _ => agg(s))
  }

  /** An elementwise expression: g applied to every value. */
  function MapEach<V(!new), W>(g: V -> W): (f: seq<V> -> seq<W>)
    ensures LengthPreserving(f)
    ensures forall s, j :: 0 <= j < |s| ==> f(s)[j] == g(s[j])
  {
    s => seq(|s|, j requires 0 <= j < |s| => g(s[j]))
  }

  /** `f.over(keys)` for a row-preserving inner expression f. */
  function OverMap<K(==), V(!new), W>(keys: seq<K>, vals: seq<V>, f: seq<V> -> seq<W>, mode: Mode): Result<seq<W>, WindowError>
    requires |keys| == |vals|
  {
    GroupingRowsBelow(keys, mode);
    var gs := Grouping(keys, mode);
    Materialize(gs, GroupOutputs(gs, vals, f), |keys|)
  }

  /** `agg.over(keys)` for a reducing aggregate. */
  function OverReduce<K(==), V(!new), R>(keys: seq<K>, vals: seq<V>, agg: seq<V> -> R, mode: Mode): Result<seq<R>, WindowError>
    requires |keys| == |vals|
  {
    OverMap(keys, vals, Broadcast(agg), mode)
  }

  function Identity<V>(s: seq<V>): seq<V> { s }

  /** `col.implode().over(keys)`: every row receives the list of its group's values. */
  function OverImplode<K(==), V(!new)>(keys: seq<K>, vals: seq<V>, mode: Mode): Result<seq<seq<V>>, WindowError>
    requires |keys| == |vals|
  {
    OverReduce(keys, vals, Identity, mode)
  }

  function Concat<W>(outs: seq<seq<W>>): seq<W>
  {
    if outs == [] then [] else Concat(outs[..|outs| - 1]) + outs[|outs| - 1]
  }

  /** `f.implode().over(keys).flatten()`: the per-group lists concatenated in group order.
      Fails when the concatenation does not have one value per input row. */
  function OverFlatten<K(==), V(!new), W>(keys: seq<K>, vals: seq<V>, f: seq<V> -> seq<W>, mode: Mode): Result<seq<W>, WindowError>
    requires |keys| == |vals|
  {
    GroupingRowsBelow(keys, mode);
    var flat := Concat(GroupOutputs(Grouping(keys, mode), vals, f));
    if |flat| == |keys| then Ok(flat) else Err(ShapeMismatch)
  }

  // ---------------------------------------------------------------------------
  // The evaluator agrees with the reference
  // ---------------------------------------------------------------------------

  /** In a grouping map, row i is found in the group of its key, at position Pos(keys, i). */
  lemma LocateDescribed<K>(gs: seq<Group<K>>, keys: seq<K>, i: nat)
    requires Describes(gs, keys) && i < |keys|
    ensures Locate(gs, i).Some?
    ensures gs[Locate(gs, i).value.0].key == keys[i]
    ensures gs[Locate(gs, i).value.0].rows == Members(keys, keys[i])
    ensures Locate(gs, i).value.1 == Pos(keys, i)
  {
    PartitionOfRows(gs, keys, i);
    var gp := Locate(gs, i).value;
    var rows := gs[gp.0].rows;
    assert rows == Members(keys, gs[gp.0].key);
    assert keys[i] == gs[gp.0].key;
    PosInMembers(keys, i);
    IncreasingIndex(rows, gp.1, Pos(keys, i));
  }

  /** Materializing a grouping map: row i gets the output of its key's group at its own position. */
  lemma MaterializeDescribed<K, V(!new), W>(keys: seq<K>, vals: seq<V>, gs: seq<Group<K>>, f: seq<V> -> seq<W>)
    requires |keys| == |vals| && Describes(gs, keys)
    requires forall g :: 0 <= g < |gs| ==> RowsBelow(gs[g].rows, |vals|)
    requires OutputsFit(gs, GroupOutputs(gs, vals, f))
    ensures Materialize(gs, GroupOutputs(gs, vals, f), |keys|).Ok?
    ensures forall i :: 0 <= i < |keys| ==>
      Pos(keys, i) < |f(GroupValues(keys, vals, keys[i]))| &&
      Materialize(gs, GroupOutputs(gs, vals, f), |keys|).value[i] == f(GroupValues(keys, vals, keys[i]))[Pos(keys, i)]
  {
    var outs := GroupOutputs(gs, vals, f);
    forall i | 0 <= i < |keys|
      ensures Locate(gs, i).Some?
      ensures gs[Locate(gs, i).value.0].rows == Members(keys, keys[i]) && Locate(gs, i).value.1 == Pos(keys, i)
    {
      LocateDescribed(gs, keys, i);
    }
  }

  /** Materializing a grouping map of the keys computes the reference result. */
  lemma MaterializeIsRefMap<K, V(!new), W>(keys: seq<K>, vals: seq<V>, gs: seq<Group<K>>, f: seq<V> -> seq<W>)
    requires |keys| == |vals| && LengthPreserving(f) && Describes(gs, keys)
    requires forall g :: 0 <= g < |gs| ==> RowsBelow(gs[g].rows, |vals|)
    ensures Materialize(gs, GroupOutputs(gs, vals, f), |keys|) == Ok(RefMap(keys, vals, f))
  {
    var outs := GroupOutputs(gs, vals, f);
    assert OutputsFit(gs, outs) by {
      forall g | 0 <= g < |gs|
        ensures |outs[g]| == |gs[g].rows|
      {
        assert |f(Select(vals, gs[g].rows))| == |Select(vals, gs[g].rows)|;
      }
    }
    MaterializeDescribed(keys, vals, gs, f);
    var m := Materialize(gs, outs, |keys|).value;
    var ref := RefMap(keys, vals, f);
    forall i | 0 <= i < |keys|
      ensures m[i] == ref[i]
    {
    }
    assert m == ref;
  }

  /** Hashed path: a row-preserving window computes the reference result. */
  lemma OverMapIsRefMap<K, V(!new), W>(keys: seq<K>, vals: seq<V>, f: seq<V> -> seq<W>)
    requires |keys| == |vals| && LengthPreserving(f)
    ensures OverMap(keys, vals, f, Hashed) == Ok(RefMap(keys, vals, f))
  {
    HashGroupsDescribe(keys);
    GroupingRowsBelow(keys, Hashed);
    MaterializeIsRefMap(keys, vals, HashGroups(keys), f);
  }

  /** Materializing a grouping map fails exactly when some row's group output does not have the group's length. */
  lemma MaterializeFails<K, V(!new), W>(keys: seq<K>, vals: seq<V>, gs: seq<Group<K>>, f: seq<V> -> seq<W>)
    requires |keys| == |vals| && Describes(gs, keys)
    requires forall g :: 0 <= g < |gs| ==> RowsBelow(gs[g].rows, |vals|)
    ensures Materialize(gs, GroupOutputs(gs, vals, f), |keys|).Err? <==>
      exists i :: 0 <= i < |keys| && |f(GroupValues(keys, vals, keys[i]))| != |Members(keys, keys[i])|
  {
    var outs := GroupOutputs(gs, vals, f);
    if exists i :: 0 <= i < |keys| && |f(GroupValues(keys, vals, keys[i]))| != |Members(keys, keys[i])| {
      var i :| 0 <= i < |keys| && |f(GroupValues(keys, vals, keys[i]))| != |Members(keys, keys[i])|;
      assert HasGroup(gs, keys[i]);
      var g :| 0 <= g < |gs| && gs[g].key == keys[i];
      assert |outs[g]| != |gs[g].rows|;
    } else {
      forall g | 0 <= g < |gs|
        ensures |outs[g]| == |gs[g].rows|
      {
        var i := gs[g].rows[0];
        assert keys[i] == gs[g].key;
      }
      MaterializeDescribed(keys, vals, gs, f);
    }
  }

  /** Hashed path: a row-preserving window fails exactly when some group's output does not have the group's length. */
  lemma OverMapFails<K, V(!new), W>(keys: seq<K>, vals: seq<V>, f: seq<V> -> seq<W>)
    requires |keys| == |vals|
    ensures OverMap(keys, vals, f, Hashed).Err? <==>
      exists i :: 0 <= i < |keys| && |f(GroupValues(keys, vals, keys[i]))| != |Members(keys, keys[i])|
  {
    HashGroupsDescribe(keys);
    GroupingRowsBelow(keys, Hashed);
    MaterializeFails(keys, vals, HashGroups(keys), f);
  }

  /** Hashed path: a reducing window gives every row the aggregate of its group. */
  lemma OverReduceIsRefReduce<K, V(!new), R>(keys: seq<K>, vals: seq<V>, agg: seq<V> -> R)
    requires |keys| == |vals|
    ensures OverReduce(keys, vals, agg, Hashed) == Ok(RefReduce(keys, vals, agg))
  {
    var f := Broadcast(agg);
    OverMapIsRefMap(keys, vals, f);
    var m, ref := RefMap(keys, vals, f), RefReduce(keys, vals, agg);
    forall i | 0 <= i < |keys|
      ensures m[i] == ref[i]
    {
      RefMapAt(keys, vals, f, i);
      var gv := GroupValues(keys, vals, keys[i]);
      assert m[i] == f(gv)[Pos(keys, i)] == agg(gv);
    }
    assert m == ref;
  }

  /** Sorted fast path and hashed path agree on keys that are indeed sorted. */
  lemma SortedAgreesWithHashed<K, V(!new), W>(keys: seq<K>, vals: seq<V>, f: seq<V> -> seq<W>)
    requires |keys| == |vals| && Contiguous(keys)
    ensures OverMap(keys, vals, f, Sorted) == OverMap(keys, vals, f, Hashed)
    ensures OverFlatten(keys, vals, f, Sorted) == OverFlatten(keys, vals, f, Hashed)
  {
    RunsAreHashGroups(keys);
  }

  /** Broadcast consistency: rows with equal keys receive the same aggregate, and the output has one value per row. */
  lemma BroadcastConsistent<K, V(!new), R>(keys: seq<K>, vals: seq<V>, agg: seq<V> -> R, mode: Mode)
    requires |keys| == |vals|
    requires mode == Sorted ==> Contiguous(keys)
    ensures OverReduce(keys, vals, agg, mode).Ok?
    ensures |OverReduce(keys, vals, agg, mode).value| == |keys|
    ensures forall i, j :: 0 <= i < |keys| && 0 <= j < |keys| && keys[i] == keys[j] ==>
      OverReduce(keys, vals, agg, mode).value[i] == OverReduce(keys, vals, agg, mode).value[j]
  {
    if mode == Sorted {
      SortedAgreesWithHashed(keys, vals, Broadcast(agg));
    }
    OverReduceIsRefReduce(keys, vals, agg);
  }

  /** `implode().over(keys)` gives every row the list of its group's values, in row order. */
  lemma ImplodeBroadcastsList<K, V(!new)>(keys: seq<K>, vals: seq<V>)
    requires |keys| == |vals|
    ensures OverImplode(keys, vals, Hashed).Ok?
    ensures |OverImplode(keys, vals, Hashed).value| == |keys|
    ensures forall i :: 0 <= i < |keys| ==>
      OverImplode(keys, vals, Hashed).value[i] == GroupValues(keys, vals, keys[i])
  {
    OverReduceIsRefReduce(keys, vals, Identity);
  }

  /** An elementwise inner expression is not affected by the window: row i gets g(vals[i]). */
  lemma ElementwiseOver<K, V(!new), W>(keys: seq<K>, vals: seq<V>, g: V -> W)
    requires |keys| == |vals|
    ensures OverMap(keys, vals, MapEach(g), Hashed).Ok?
    ensures |OverMap(keys, vals, MapEach(g), Hashed).value| == |keys|
    ensures forall i :: 0 <= i < |keys| ==> OverMap(keys, vals, MapEach(g), Hashed).value[i] == g(vals[i])
  {
    OverMapIsRefMap(keys, vals, MapEach(g));
    forall i | 0 <= i < |keys|
      ensures RefMap(keys, vals, MapEach(g))[i] == g(vals[i])
    {
      PosInMembers(keys, i);
    }
  }

  // ---------------------------------------------------------------------------
  // Flatten
  // ---------------------------------------------------------------------------

  function TotalRows<K>(gs: seq<Group<K>>): nat
  {
    if gs == [] then 0 else TotalRows(gs[..|gs| - 1]) + |gs[|gs| - 1].rows|
  }

  lemma {:induction false} TotalRowsUpdate<K>(gs: seq<Group<K>>, g: nat, x: Group<K>)
    requires g < |gs|
    ensures TotalRows(gs[g := x]) == TotalRows(gs) - |gs[g].rows| + |x.rows|
    decreases |gs|
  {
    var n := |gs| - 1;
    if g < n {
      assert gs[g := x][..n] == gs[..n][g := x];
      TotalRowsUpdate(gs[..n], g, x);
    } else {
      assert gs[g := x][..n] == gs[..n];
    }
  }

  lemma TotalRowsSnoc<K>(gs: seq<Group<K>>, x: Group<K>)
    ensures TotalRows(gs + [x]) == TotalRows(gs) + |x.rows|
  {
    assert (gs + [x])[..|gs|] == gs;
  }

  /** A grouping map holds each row once: its group sizes add up to the number of rows. */
  lemma {:induction false} GroupingTotal<K>(keys: seq<K>, mode: Mode)
    ensures TotalRows(Grouping(keys, mode)) == |keys|
    decreases |keys|
  {
    if keys != [] {
      var n := |keys| - 1;
      GroupingTotal(keys[..n], mode);
      var gs0 := Grouping(keys[..n], mode);
      var k := keys[n];
      match mode {
        case Hashed =>
          match FindKey(gs0, k) {
            case Some(g) => TotalRowsUpdate(gs0, g, Group(k, gs0[g].rows + [n]));
            case None => TotalRowsSnoc(gs0, Group(k, [n]));
          }
        case Sorted =>
          if gs0 != [] && gs0[|gs0| - 1].key == k {
            TotalRowsUpdate(gs0, |gs0| - 1, Group(k, gs0[|gs0| - 1].rows + [n]));
          } else {
            TotalRowsSnoc(gs0, Group(k, [n]));
          }
      }
    }
  }

  lemma {:induction false} ConcatLength<K, V(!new), W>(gs: seq<Group<K>>, vals: seq<V>, f: seq<V> -> seq<W>)
    requires forall g :: 0 <= g < |gs| ==> RowsBelow(gs[g].rows, |vals|)
    requires LengthPreserving(f)
    ensures |Concat(GroupOutputs(gs, vals, f))| == TotalRows(gs)
    decreases |gs|
  {
    if gs != [] {
      var n := |gs| - 1;
      assert GroupOutputs(gs, vals, f)[..n] == GroupOutputs(gs[..n], vals, f);
      ConcatLength(gs[..n], vals, f);
    }
  }

  /** With a length-preserving inner expression, flatten never fails and has one value per row. */
  lemma FlattenLength<K, V(!new), W>(keys: seq<K>, vals: seq<V>, f: seq<V> -> seq<W>, mode: Mode)
    requires |keys| == |vals| && LengthPreserving(f)
    ensures OverFlatten(keys, vals, f, mode).Ok?
    ensures |OverFlatten(keys, vals, f, mode).value| == |keys|
  {
    GroupingRowsBelow(keys, mode);
    GroupingTotal(keys, mode);
    ConcatLength(Grouping(keys, mode), vals, f);
  }

  /** The values of every group, in group order. */
  function Slices<K, V>(gs: seq<Group<K>>, vals: seq<V>): (r: seq<seq<V>>)
    requires forall g :: 0 <= g < |gs| ==> RowsBelow(gs[g].rows, |vals|)
    ensures |r| == |gs|
  {
    seq(|gs|, g requires 0 <= g < |gs| => Select(vals, gs[g].rows))
  }

  lemma ConcatSnoc<W>(outs: seq<seq<W>>, x: seq<W>)
    ensures Concat(outs + [x]) == Concat(outs) + x
  {
    assert (outs + [x])[..|outs|] == outs;
  }

  lemma ConcatExtendLast<W>(outs: seq<seq<W>>, y: seq<W>)
    requires outs != []
    ensures Concat(outs[|outs| - 1 := outs[|outs| - 1] + y]) == Concat(outs) + y
  {
    var last := |outs| - 1;
    assert outs[last := outs[last] + y][..last] == outs[..last];
  }

  lemma SelectSnoc<V>(vals: seq<V>, rows: seq<nat>, i: nat)
    requires RowsBelow(rows, |vals|) && i < |vals|
    ensures Select(vals, rows + [i]) == Select(vals, rows) + [vals[i]]
  {
  }

  /** Values of rows below n do not depend on the values from row n on. */
  lemma SlicesPrefix<K, V>(gs: seq<Group<K>>, vals: seq<V>, n: nat)
    requires n <= |vals| && forall g :: 0 <= g < |gs| ==> RowsBelow(gs[g].rows, n)
    ensures forall g :: 0 <= g < |gs| ==> RowsBelow(gs[g].rows, |vals|)
    ensures Slices(gs, vals) == Slices(gs, vals[..n])
  {
    forall g | 0 <= g < |gs|
      ensures RowsBelow(gs[g].rows, |vals|)
    {
      assert RowsBelow(gs[g].rows, n);
    }
    forall g | 0 <= g < |gs|
      ensures Select(vals, gs[g].rows) == Select(vals[..n], gs[g].rows)
    {
    }
  }

  /** Sorted path step on a repeated key: the slices of the runs grow at the last one. */
  lemma RunsSlicesExtend<K, V>(keys: seq<K>, vals: seq<V>)
    requires |keys| == |vals| && keys != []
    requires var gs0 := Runs(keys[..|keys| - 1]);
      gs0 != [] && gs0[|gs0| - 1].key == keys[|keys| - 1]
    ensures forall g :: 0 <= g < |Runs(keys)| ==> RowsBelow(Runs(keys)[g].rows, |vals|)
    ensures var n := |keys| - 1;
      forall g :: 0 <= g < |Runs(keys[..n])| ==> RowsBelow(Runs(keys[..n])[g].rows, n)
    ensures var n := |keys| - 1; var xs := Slices(Runs(keys[..n]), vals[..n]);
      Concat(Slices(Runs(keys), vals)) == Concat(xs) + [vals[n]]
  {
    var n := |keys| - 1;
    var gs0 := Runs(keys[..n]);
    RunsRowsBelow(keys);
    RunsRowsBelow(keys[..n]);
    SlicesPrefix(gs0, vals, n);
    var xs := Slices(gs0, vals);
    var last := |gs0| - 1;
    SelectSnoc(vals, gs0[last].rows, n);
    assert Slices(Runs(keys), vals) == xs[last := xs[last] + [vals[n]]];
    ConcatExtendLast(xs, [vals[n]]);
  }

  /** Sorted path step on a new key: the slices of the runs get one more. */
  lemma RunsSlicesOpen<K, V>(keys: seq<K>, vals: seq<V>)
    requires |keys| == |vals| && keys != []
    requires var gs0 := Runs(keys[..|keys| - 1]);
      !(gs0 != [] && gs0[|gs0| - 1].key == keys[|keys| - 1])
    ensures forall g :: 0 <= g < |Runs(keys)| ==> RowsBelow(Runs(keys)[g].rows, |vals|)
    ensures var n := |keys| - 1;
      forall g :: 0 <= g < |Runs(keys[..n])| ==> RowsBelow(Runs(keys[..n])[g].rows, n)
    ensures var n := |keys| - 1; var xs := Slices(Runs(keys[..n]), vals[..n]);
      Concat(Slices(Runs(keys), vals)) == Concat(xs) + [vals[n]]
  {
    var n := |keys| - 1;
    var gs0 := Runs(keys[..n]);
    RunsRowsBelow(keys);
    RunsRowsBelow(keys[..n]);
    SlicesPrefix(gs0, vals, n);
    var xs := Slices(gs0, vals);
    var gs := Runs(keys);
    assert gs == gs0 + [Group(keys[n], [n])];
    assert Select(vals, gs[|gs0|].rows) == [vals[n]];
    assert Slices(gs, vals) == xs + [[vals[n]]];
    ConcatSnoc(xs, [vals[n]]);
  }

  /** Concatenating the runs of a frame, in order, gives back its column. */
  lemma {:induction false} RunsSlicesConcat<K, V>(keys: seq<K>, vals: seq<V>)
    requires |keys| == |vals|
    ensures forall g :: 0 <= g < |Runs(keys)| ==> RowsBelow(Runs(keys)[g].rows, |vals|)
    ensures Concat(Slices(Runs(keys), vals)) == vals
    decreases |keys|
  {
    RunsRowsBelow(keys);
    if keys != [] {
      var n := |keys| - 1;
      RunsSlicesConcat(keys[..n], vals[..n]);
      var gs0 := Runs(keys[..n]);
      if gs0 != [] && gs0[|gs0| - 1].key == keys[n] {
        RunsSlicesExtend(keys, vals);
      } else {
        RunsSlicesOpen(keys, vals);
      }
      assert vals == vals[..n] + [vals[n]];
    }
  }

  /** On sorted keys, `implode().over(keys).flatten()` gives back the column unchanged, aligned with the rows. */
  lemma FlattenSortedIsIdentity<K, V(!new)>(keys: seq<K>, vals: seq<V>, mode: Mode)
    requires |keys| == |vals| && Contiguous(keys)
    ensures OverFlatten(keys, vals, Identity, mode) == Ok(vals)
  {
    SortedAgreesWithHashed(keys, vals, Identity);
    RunsSlicesConcat(keys, vals);
    RunsRowsBelow(keys);
    assert GroupOutputs(Runs(keys), vals, Identity) == Slices(Runs(keys), vals);
  }

  /** The implode column and the flatten column of the same partition agree row by row:
      on sorted keys, flattened row i is the entry of row i's list at row i's position. */
  lemma ImplodeFlattenAgree<K, V(!new)>(keys: seq<K>, vals: seq<V>)
    requires |keys| == |vals| && Contiguous(keys)
    ensures OverImplode(keys, vals, Hashed).Ok? && OverFlatten(keys, vals, Identity, Hashed).Ok?
    ensures forall i :: 0 <= i < |keys| ==>
      Pos(keys, i) < |OverImplode(keys, vals, Hashed).value[i]| &&
      OverFlatten(keys, vals, Identity, Hashed).value[i] == OverImplode(keys, vals, Hashed).value[i][Pos(keys, i)]
  {
    ImplodeBroadcastsList(keys, vals);
    FlattenSortedIsIdentity(keys, vals, Hashed);
    forall i | 0 <= i < |keys|
      ensures Pos(keys, i) < |GroupValues(keys, vals, keys[i])| && GroupValues(keys, vals, keys[i])[Pos(keys, i)] == vals[i]
    {
      PosInMembers(keys, i);
    }
  }

  // ---------------------------------------------------------------------------
  // Reordering the frame
  // ---------------------------------------------------------------------------

  /** p lists every row of an n-row frame exactly once: a reordering such as a sort. */
  ghost predicate IsPermutation(p: seq<nat>, n: nat) {
    && |p| == n
    && RowsBelow(p, n)
    && (forall a, b :: 0 <= a < b < n ==> p[a] != p[b])
    && (forall i :: 0 <= i < n ==> i in p)
  }

  /** The reordering keeps the rows of one key in their original relative order, as a stable sort by the key does. */
  ghost predicate KeepsGroupOrder<K>(keys: seq<K>, p: seq<nat>) {
    forall a, b :: 0 <= a < b < |p| && p[a] < |keys| && p[b] < |keys| && keys[p[a]] == keys[p[b]] ==> p[a] < p[b]
  }

  /** Rows in the order p. */
  function Permute<T>(s: seq<T>, p: seq<nat>): (r: seq<T>)
    requires RowsBelow(p, |s|)
    ensures |r| == |p|
  {
    Select(s, p)
  }

  lemma PermutedMembersIncreasing<K>(keys: seq<K>, p: seq<nat>, k: K)
    requires IsPermutation(p, |keys|) && KeepsGroupOrder(keys, p)
    ensures RowsBelow(Members(Permute(keys, p), k), |p|)
    ensures Increasing(Permute(p, Members(Permute(keys, p), k)))
  {
    var keys' := Permute(keys, p);
    var r' := Members(keys', k);
    var t := Permute(p, r');
    MembersComplete(keys', k);
    forall j1, j2 | 0 <= j1 < j2 < |t|
      ensures t[j1] < t[j2]
    {
      assert r'[j1] < r'[j2];
      assert keys[p[r'[j1]]] == keys'[r'[j1]];
      assert keys[p[r'[j2]]] == keys'[r'[j2]];
    }
  }

  lemma PermutedMembersSound<K>(keys: seq<K>, p: seq<nat>, k: K, x: nat)
    requires IsPermutation(p, |keys|)
    ensures RowsBelow(Members(Permute(keys, p), k), |p|)
    ensures x in Permute(p, Members(Permute(keys, p), k)) ==> x in Members(keys, k)
  {
    var keys' := Permute(keys, p);
    var r' := Members(keys', k);
    var t := Permute(p, r');
    if x in t {
      var j :| 0 <= j < |t| && t[j] == x;
      assert keys[x] == keys'[r'[j]];
      MembersComplete(keys, k);
    }
  }

  lemma PermutedMembersComplete<K>(keys: seq<K>, p: seq<nat>, k: K, x: nat)
    requires IsPermutation(p, |keys|)
    ensures RowsBelow(Members(Permute(keys, p), k), |p|)
    ensures x in Members(keys, k) ==> x in Permute(p, Members(Permute(keys, p), k))
  {
    var keys' := Permute(keys, p);
    var r' := Members(keys', k);
    var m := Members(keys, k);
    if x in m {
      var j :| 0 <= j < |m| && m[j] == x;
      assert x < |keys| && x in p;
      var a :| 0 <= a < |p| && p[a] == x;
      assert keys'[a] == k;
      MembersComplete(keys', k);
      var j' :| 0 <= j' < |r'| && r'[j'] == a;
      assert Permute(p, r')[j'] == x;
    }
  }

  /** After a group-order-keeping reordering, the members of a key are the old members, renumbered. */
  lemma PermutedMembers<K>(keys: seq<K>, p: seq<nat>, k: K)
    requires IsPermutation(p, |keys|) && KeepsGroupOrder(keys, p)
    ensures RowsBelow(Members(Permute(keys, p), k), |p|)
    ensures Permute(p, Members(Permute(keys, p), k)) == Members(keys, k)
  {
    PermutedMembersIncreasing(keys, p, k);
    MembersComplete(keys, k);
    forall x
      ensures x in Permute(p, Members(Permute(keys, p), k)) <==> x in Members(keys, k)
    {
      PermutedMembersSound(keys, p, k, x);
      PermutedMembersComplete(keys, p, k, x);
    }
    IncreasingUnique(Permute(p, Members(Permute(keys, p), k)), Members(keys, k));
  }

  /** After a group-order-keeping reordering, each row keeps its position inside its group. */
  lemma PermutedPos<K>(keys: seq<K>, p: seq<nat>, a: nat)
    requires IsPermutation(p, |keys|) && KeepsGroupOrder(keys, p) && a < |p|
    ensures Pos(Permute(keys, p), a) == Pos(keys, p[a])
  {
    var keys' := Permute(keys, p);
    var k := keys'[a];
    PermutedMembers(keys, p, k);
    PosInMembers(keys', a);
    PosInMembers(keys, p[a]);
    MembersComplete(keys, k);
    IncreasingIndex(Members(keys, k), Pos(keys', a), Pos(keys, p[a]));
  }

  /** After a group-order-keeping reordering, each group has the same values in the same order. */
  lemma PermutedGroupValues<K, V(!new)>(keys: seq<K>, vals: seq<V>, p: seq<nat>, k: K)
    requires |keys| == |vals| && IsPermutation(p, |keys|) && KeepsGroupOrder(keys, p)
    ensures GroupValues(Permute(keys, p), Permute(vals, p), k) == GroupValues(keys, vals, k)
  {
    PermutedMembers(keys, p, k);
  }

  /** Sorting and then evaluating a window is the same as evaluating and then sorting the result,
      whenever the sort keeps the rows of each group in their relative order. */
  lemma ReorderCommutes<K, V(!new), W>(keys: seq<K>, vals: seq<V>, f: seq<V> -> seq<W>, p: seq<nat>)
    requires |keys| == |vals| && LengthPreserving(f)
    requires IsPermutation(p, |keys|) && KeepsGroupOrder(keys, p)
    ensures OverMap(keys, vals, f, Hashed).Ok?
    ensures OverMap(Permute(keys, p), Permute(vals, p), f, Hashed) == Ok(Permute(OverMap(keys, vals, f, Hashed).value, p))
  {
    var keys' := Permute(keys, p);
    var vals' := Permute(vals, p);
    OverMapIsRefMap(keys, vals, f);
    OverMapIsRefMap(keys', vals', f);
    forall a | 0 <= a < |p|
      ensures RefMap(keys', vals', f)[a] == RefMap(keys, vals, f)[p[a]]
    {
      PermutedGroupValues(keys, vals, p, keys'[a]);
      PermutedPos(keys, p, a);
    }
    assert RefMap(keys', vals', f) == Permute(RefMap(keys, vals, f), p);
  }
}
