/** The window tests' expected columns, each stated as a lemma about the evaluator. */
module WindowCases {
  import opened Wrappers
  import opened Window
  import opened WindowOps

  /** The members of k from row `from` on, computed front to back; used to evaluate concrete frames. */
  function MembersFrom<K(==)>(keys: seq<K>, k: K, from: nat): (r: seq<nat>)
    requires from <= |keys|
    ensures forall j :: 0 <= j < |r| ==> from <= r[j] < |keys| && keys[r[j]] == k
    ensures forall i :: from <= i < |keys| && keys[i] == k ==> i in r
    ensures Increasing(r)
    decreases |keys| - from
  {
    if from == |keys| then []
    else (if keys[from] == k then [from] else []) + MembersFrom(keys, k, from + 1)
  }

  lemma MembersForward<K>(keys: seq<K>, k: K)
    ensures Members(keys, k) == MembersFrom(keys, k, 0)
  {
    MembersComplete(keys, k);
    IncreasingUnique(Members(keys, k), MembersFrom(keys, k, 0));
  }

  /** Row i's position in its group, read off the group's members. */
  lemma PosFromMembers<K>(keys: seq<K>, i: nat, p: nat)
    requires i < |keys| && p < |Members(keys, keys[i])| && Members(keys, keys[i])[p] == i
    ensures Pos(keys, i) == p
  {
    PosInMembers(keys, i);
    MembersComplete(keys, keys[i]);
    IncreasingIndex(Members(keys, keys[i]), p, Pos(keys, i));
  }

  /** The row indices lo, lo + 1, ..., hi - 1. */
  function Span(lo: nat, hi: nat): (r: seq<nat>)
    requires lo <= hi
    ensures |r| == hi - lo
    ensures forall j :: 0 <= j < |r| ==> r[j] == lo + j
  {
    seq(hi - lo, j requires 0 <= j < hi - lo => lo + j)
  }

  /** A key held by exactly the rows of one contiguous run has that run as its group. */
  lemma MembersOfRun<K>(keys: seq<K>, k: K, lo: nat, hi: nat)
    requires lo <= hi <= |keys|
    requires forall i :: lo <= i < hi ==> keys[i] == k
    requires forall i :: 0 <= i < lo ==> keys[i] != k
    requires forall i :: hi <= i < |keys| ==> keys[i] != k
    ensures Members(keys, k) == Span(lo, hi)
  {
    MembersComplete(keys, k);
    var m := Members(keys, k);
    var r := Span(lo, hi);
    forall x
      ensures x in m <==> x in r
    {
      if x in m {
        var j :| 0 <= j < |m| && m[j] == x;
        assert x - lo < |r| && r[x - lo] == x;
      }
      if x in r {
        var j :| 0 <= j < |r| && r[j] == x;
      }
    }
    IncreasingUnique(m, r);
  }

  // ---------------------------------------------------------------------------
  // Reducing aggregates
  // ---------------------------------------------------------------------------

  lemma MaxOverOneColumnRef(keys: seq<char>, vals: seq<Option<int>>)
    requires keys == ['a', 'a', 'b'] && vals == [Some(3), Some(2), Some(1)]
    ensures RefReduce(keys, vals, MaxOf) == [Some(3), Some(3), Some(1)]
  {
    MembersOfRun(keys, 'a', 0, 2);
    MembersOfRun(keys, 'b', 2, 3);
    assert MaxOf([Some(3), Some(2)]) == Some(3) by {
      assert [Some(3), Some(2)][..1] == [Some(3)];
    }
    MaxOfSingle(Some(1));
    RefReduceAt(keys, vals, MaxOf, 0, [Some(3), Some(2)]);
    RefReduceAt(keys, vals, MaxOf, 1, [Some(3), Some(2)]);
    RefReduceAt(keys, vals, MaxOf, 2, [Some(1)]);
  }

  /** `c.max().over("a")` with a = [a, a, b] and c = [3, 2, 1] gives [3, 3, 1]. */
  lemma MaxOverOneColumn(keys: seq<char>, vals: seq<Option<int>>)
    requires keys == ['a', 'a', 'b'] && vals == [Some(3), Some(2), Some(1)]
    ensures OverReduce(keys, vals, MaxOf, Hashed) == Ok([Some(3), Some(3), Some(1)])
  {
    OverReduceIsRefReduce(keys, vals, MaxOf);
    MaxOverOneColumnRef(keys, vals);
  }

  lemma ZipKeys(a: seq<char>, b: seq<int>)
    requires a == ['a', 'a', 'b'] && b == [1, 2, 3]
    ensures Zip(a, b) == [('a', 1), ('a', 2), ('b', 3)]
  {
  }

  lemma DistinctTuples(keys: seq<(char, int)>)
    requires keys == [('a', 1), ('a', 2), ('b', 3)]
    ensures forall i, j :: 0 <= i < j < |keys| ==> keys[i] != keys[j]
  {
    assert forall i :: 0 <= i < |keys| ==> keys[i].1 == i + 1;
  }

  /** Over keys with no repeats, `c.max()` gives each row its own value back. */
  lemma DistinctMax<K>(keys: seq<K>, vals: seq<Option<int>>)
    requires |keys| == |vals|
    requires forall i, j :: 0 <= i < j < |keys| ==> keys[i] != keys[j]
    ensures OverReduce(keys, vals, MaxOf, Hashed) == Ok(vals)
  {
    DistinctKeySingletons(keys, vals, MaxOf);
    var r := OverReduce(keys, vals, MaxOf, Hashed).value;
    forall i | 0 <= i < |keys|
      ensures r[i] == vals[i]
    {
      MaxOfSingle(vals[i]);
    }
    assert r == vals;
  }

  lemma MaxOfSingle(x: Option<int>)
    ensures MaxOf([x]) == x
  {
    assert [x][..0] == [];
  }

  /** `c.max().over("a", "b")` with b = [1, 2, 3]: every key tuple is distinct, so c = [3, 2, 1] comes back unchanged.
      The list form `over(["a", "b"])` builds the same key tuples. */
  lemma MaxOverTwoColumns(a: seq<char>, b: seq<int>, vals: seq<Option<int>>)
    requires a == ['a', 'a', 'b'] && b == [1, 2, 3] && vals == [Some(3), Some(2), Some(1)]
    ensures OverReduce(Zip(a, b), vals, MaxOf, Hashed) == Ok([Some(3), Some(2), Some(1)])
  {
    ZipKeys(a, b);
    DistinctTuples(Zip(a, b));
    DistinctMax(Zip(a, b), vals);
  }

  lemma CountOverRef(keys: seq<int>, vals: seq<int>)
    requires keys == [1, 1, 2] && vals == [1, 1, 2]
    ensures RefReduce(keys, vals, CountRows) == [2, 2, 1]
  {
    MembersOfRun(keys, 1, 0, 2);
    MembersOfRun(keys, 2, 2, 3);
    RefReduceAt(keys, vals, CountRows, 0, [1, 1]);
    RefReduceAt(keys, vals, CountRows, 1, [1, 1]);
    RefReduceAt(keys, vals, CountRows, 2, [2]);
  }

  /** `count().over("a")` with a = [1, 1, 2] gives [2, 2, 1]. */
  lemma CountOverCase(keys: seq<int>)
    requires keys == [1, 1, 2]
    ensures OverReduce(keys, keys, CountRows, Hashed) == Ok([2, 2, 1])
  {
    OverReduceIsRefReduce(keys, keys, CountRows);
    CountOverRef(keys, keys);
  }

  lemma NullKeyMaxRef(keys: seq<Option<int>>, vals: seq<Option<int>>)
    requires keys == [None, Some(1)] && vals == [None, Some(2)]
    ensures RefReduce(keys, vals, MaxOf) == [None, Some(2)]
  {
    MembersOfRun(keys, None, 0, 1);
    MembersOfRun(keys, Some(1), 1, 2);
    MaxOfSingle(None);
    MaxOfSingle(Some(2));
    RefReduceAt(keys, vals, MaxOf, 0, [None]);
    RefReduceAt(keys, vals, MaxOf, 1, [Some(2)]);
  }

  /** `value.max().over("id")` with value = [null, 2] and id = [null, 1] gives [null, 2]:
      the null key is a group of its own, and its only value is null. */
  lemma NullKeyMax(keys: seq<Option<int>>, vals: seq<Option<int>>)
    requires keys == [None, Some(1)] && vals == [None, Some(2)]
    ensures OverReduce(keys, vals, MaxOf, Hashed) == Ok([None, Some(2)])
  {
    OverReduceIsRefReduce(keys, vals, MaxOf);
    NullKeyMaxRef(keys, vals);
  }

  lemma NullKeySumGroups(a: seq<Option<int>>)
    requires a == [None, Some(1), Some(2), Some(3), Some(3), Some(3), Some(4), Some(4)]
    ensures Members(a, None) == [0] && Members(a, Some(1)) == [1] && Members(a, Some(2)) == [2]
    ensures Members(a, Some(3)) == [3, 4, 5] && Members(a, Some(4)) == [6, 7]
  {
    MembersOfRun(a, None, 0, 1);
    MembersOfRun(a, Some(1), 1, 2);
    MembersOfRun(a, Some(2), 2, 3);
    MembersOfRun(a, Some(3), 3, 6);
    MembersOfRun(a, Some(4), 6, 8);
  }

  /** The sums of the runs of the null-key test: a single null sums to null. */
  lemma RunSums()
    ensures SumOf([None]) == None && SumOf([Some(1)]) == Some(1) && SumOf([Some(2)]) == Some(2)
    ensures SumOf([Some(3), Some(3), Some(3)]) == Some(9) && SumOf([Some(4), Some(4)]) == Some(8)
  {
    assert [Some(3), Some(3), Some(3)][..2] == [Some(3), Some(3)];
    assert [Some(3), Some(3)][..1] == [Some(3)] && [Some(4), Some(4)][..1] == [Some(4)];
  }

  lemma NullKeySumValues(a: seq<Option<int>>)
    requires a == [None, Some(1), Some(2), Some(3), Some(3), Some(3), Some(4), Some(4)]
    ensures GroupValues(a, a, None) == [None] && GroupValues(a, a, Some(1)) == [Some(1)]
    ensures GroupValues(a, a, Some(2)) == [Some(2)]
    ensures GroupValues(a, a, Some(3)) == [Some(3), Some(3), Some(3)]
    ensures GroupValues(a, a, Some(4)) == [Some(4), Some(4)]
  {
    NullKeySumGroups(a);
  }

  lemma NullKeySumRef(a: seq<Option<int>>)
    requires a == [None, Some(1), Some(2), Some(3), Some(3), Some(3), Some(4), Some(4)]
    ensures RefReduce(a, a, SumOf) == [None, Some(1), Some(2), Some(9), Some(9), Some(9), Some(8), Some(8)]
  {
    NullKeySumValues(a);
    RunSums();
    RefReduceAt(a, a, SumOf, 0, [None]);
    RefReduceAt(a, a, SumOf, 1, [Some(1)]);
    RefReduceAt(a, a, SumOf, 2, [Some(2)]);
    RefReduceAt(a, a, SumOf, 3, [Some(3), Some(3), Some(3)]);
    RefReduceAt(a, a, SumOf, 4, [Some(3), Some(3), Some(3)]);
    RefReduceAt(a, a, SumOf, 5, [Some(3), Some(3), Some(3)]);
    RefReduceAt(a, a, SumOf, 6, [Some(4), Some(4)]);
    RefReduceAt(a, a, SumOf, 7, [Some(4), Some(4)]);
  }

  /** `a.sum().over("a")` with a = [null, 1, 2, 3, 3, 3, 4, 4] gives [null, 1, 2, 9, 9, 9, 8, 8],
      on the hashed path and on the sorted fast path alike, since the column is sorted with nulls first. */
  lemma NullKeySum(a: seq<Option<int>>, mode: Mode)
    requires a == [None, Some(1), Some(2), Some(3), Some(3), Some(3), Some(4), Some(4)]
    ensures OverReduce(a, a, SumOf, mode) == Ok([None, Some(1), Some(2), Some(9), Some(9), Some(9), Some(8), Some(8)])
  {
    assert SortedNullsFirst(a);
    SortedNullsFirstContiguous(a);
    SortedAgreesWithHashed(a, a, Broadcast(SumOf));
    OverReduceIsRefReduce(a, a, SumOf);
    NullKeySumRef(a);
  }

  lemma DropNullsGroups(a: seq<Option<int>>)
    requires a == [Some(1), Some(2), Some(3), Some(3), Some(3), Some(4), Some(4)]
    ensures Members(a, Some(1)) == [0] && Members(a, Some(2)) == [1]
    ensures Members(a, Some(3)) == [2, 3, 4] && Members(a, Some(4)) == [5, 6]
  {
    MembersOfRun(a, Some(1), 0, 1);
    MembersOfRun(a, Some(2), 1, 2);
    MembersOfRun(a, Some(3), 2, 5);
    MembersOfRun(a, Some(4), 5, 7);
  }

  lemma DropNullsValues(a: seq<Option<int>>)
    requires a == [Some(1), Some(2), Some(3), Some(3), Some(3), Some(4), Some(4)]
    ensures GroupValues(a, a, Some(1)) == [Some(1)] && GroupValues(a, a, Some(2)) == [Some(2)]
    ensures GroupValues(a, a, Some(3)) == [Some(3), Some(3), Some(3)]
    ensures GroupValues(a, a, Some(4)) == [Some(4), Some(4)]
  {
    DropNullsGroups(a);
  }

  lemma DropNullsSumRef(a: seq<Option<int>>)
    requires a == [Some(1), Some(2), Some(3), Some(3), Some(3), Some(4), Some(4)]
    ensures RefReduce(a, a, SumOf) == [Some(1), Some(2), Some(9), Some(9), Some(9), Some(8), Some(8)]
  {
    DropNullsValues(a);
    RunSums();
    RefReduceAt(a, a, SumOf, 0, [Some(1)]);
    RefReduceAt(a, a, SumOf, 1, [Some(2)]);
    RefReduceAt(a, a, SumOf, 2, [Some(3), Some(3), Some(3)]);
    RefReduceAt(a, a, SumOf, 3, [Some(3), Some(3), Some(3)]);
    RefReduceAt(a, a, SumOf, 4, [Some(3), Some(3), Some(3)]);
    RefReduceAt(a, a, SumOf, 5, [Some(4), Some(4)]);
    RefReduceAt(a, a, SumOf, 6, [Some(4), Some(4)]);
  }

  /** After `drop_nulls()` the same window gives [1, 2, 9, 9, 9, 8, 8], on either path. */
  lemma DropNullsSum(a: seq<Option<int>>, mode: Mode)
    requires a == [Some(1), Some(2), Some(3), Some(3), Some(3), Some(4), Some(4)]
    ensures OverReduce(a, a, SumOf, mode) == Ok([Some(1), Some(2), Some(9), Some(9), Some(9), Some(8), Some(8)])
  {
    assert SortedNullsFirst(a);
    SortedNullsFirstContiguous(a);
    SortedAgreesWithHashed(a, a, Broadcast(SumOf));
    OverReduceIsRefReduce(a, a, SumOf);
    DropNullsSumRef(a);
  }

  lemma FilteredMeanValues()
    ensures FilteredMean([FlaggedRow(2, 1), FlaggedRow(4, 0)]) == Some(2.0)
    ensures FilteredMean([FlaggedRow(6, 1), FlaggedRow(8, 1)]) == Some(7.0)
  {
    assert KeepFlagged([FlaggedRow(2, 1)]) == [2];
    assert KeepFlagged([FlaggedRow(2, 1), FlaggedRow(4, 0)]) == [2];
    assert KeepFlagged([FlaggedRow(6, 1)]) == [6];
    assert KeepFlagged([FlaggedRow(6, 1), FlaggedRow(8, 1)]) == [6, 8];
    assert Total([2]) == 2;
    assert Total([6, 8]) == 14;
  }

  lemma FilteredMeanRef(keys: seq<char>, rows: seq<FlaggedRow>)
    requires keys == ['A', 'A', 'B', 'B']
    requires rows == [FlaggedRow(2, 1), FlaggedRow(4, 0), FlaggedRow(6, 1), FlaggedRow(8, 1)]
    ensures RefReduce(keys, rows, FilteredMean) == [Some(2.0), Some(2.0), Some(7.0), Some(7.0)]
  {
    MembersOfRun(keys, 'A', 0, 2);
    MembersOfRun(keys, 'B', 2, 4);
    FilteredMeanValues();
    var ga, gb := [FlaggedRow(2, 1), FlaggedRow(4, 0)], [FlaggedRow(6, 1), FlaggedRow(8, 1)];
    RefReduceAt(keys, rows, FilteredMean, 0, ga);
    RefReduceAt(keys, rows, FilteredMean, 1, ga);
    RefReduceAt(keys, rows, FilteredMean, 2, gb);
    RefReduceAt(keys, rows, FilteredMean, 3, gb);
  }

  /** `field1.filter(flag == 1).mean().over("group")`: the filter drops rows inside each group,
      and the mean still reaches every row of the group: [2.0, 2.0, 7.0, 7.0]. */
  lemma FilteredMeanCase(keys: seq<char>, rows: seq<FlaggedRow>)
    requires keys == ['A', 'A', 'B', 'B']
    requires rows == [FlaggedRow(2, 1), FlaggedRow(4, 0), FlaggedRow(6, 1), FlaggedRow(8, 1)]
    ensures OverReduce(keys, rows, FilteredMean, Hashed) == Ok([Some(2.0), Some(2.0), Some(7.0), Some(7.0)])
  {
    OverReduceIsRefReduce(keys, rows, FilteredMean);
    FilteredMeanRef(keys, rows);
  }

  // ---------------------------------------------------------------------------
  // Lists and flattening
  // ---------------------------------------------------------------------------

  /** The hash path's grouping map of groups = [A, A, B, B, B]. */
  lemma GroupsOfAB(keys: seq<char>)
    requires keys == ['A', 'A', 'B', 'B', 'B']
    ensures HashGroups(keys) == [Group('A', [0, 1]), Group('B', [2, 3, 4])]
  {
    assert keys[..1] == ['A'] && keys[..1][..0] == [];
    var g1 := [Group('A', [0])];
    assert HashGroups(keys[..1]) == g1;
    assert keys[..2][..1] == keys[..1];
    assert FindKey(g1, 'A') == Some(0);
    var g2 := [Group('A', [0, 1])];
    assert g1[0].rows + [1] == [0, 1];
    assert g1[0 := Group('A', [0, 1])] == g2;
    assert HashGroups(keys[..2]) == g2;
    assert keys[..3][..2] == keys[..2];
    assert FindKey(g2[1..], 'B') == None;
    var g3 := [Group('A', [0, 1]), Group('B', [2])];
    assert HashGroups(keys[..3]) == g3;
    assert keys[..4][..3] == keys[..3];
    assert FindKey(g3[1..], 'B') == Some(0);
    var g4 := [Group('A', [0, 1]), Group('B', [2, 3])];
    assert g3[1].rows + [3] == [2, 3];
    assert g3[1 := Group('B', [2, 3])] == g4;
    assert HashGroups(keys[..4]) == g4;
    assert keys[..4] == keys[..|keys| - 1];
    assert FindKey(g4[1..], 'B') == Some(0);
    assert g4[1].rows + [4] == [2, 3, 4];
    assert g4[1 := Group('B', [2, 3, 4])] == [Group('A', [0, 1]), Group('B', [2, 3, 4])];
  }

  /** Groups A = rows 0, 1 and B = rows 2, 3, 4. */
  lemma MembersOfAB(keys: seq<char>)
    requires keys == ['A', 'A', 'B', 'B', 'B']
    ensures Members(keys, 'A') == [0, 1] && Members(keys, 'B') == [2, 3, 4]
  {
    MembersOfRun(keys, 'A', 0, 2);
    MembersOfRun(keys, 'B', 2, 5);
  }

  lemma ImplodeRef(keys: seq<char>, vals: seq<int>)
    requires keys == ['A', 'A', 'B', 'B', 'B'] && vals == [0, 1, 2, 3, 4]
    ensures RefReduce(keys, vals, Identity) == [[0, 1], [0, 1], [2, 3, 4], [2, 3, 4], [2, 3, 4]]
  {
    MembersOfAB(keys);
    RefReduceAt(keys, vals, Identity, 0, [0, 1]);
    RefReduceAt(keys, vals, Identity, 1, [0, 1]);
    RefReduceAt(keys, vals, Identity, 2, [2, 3, 4]);
    RefReduceAt(keys, vals, Identity, 3, [2, 3, 4]);
    RefReduceAt(keys, vals, Identity, 4, [2, 3, 4]);
  }

  /** `values.implode().over("groups")` broadcasts each group's list: [[0, 1], [0, 1], [2, 3, 4], [2, 3, 4], [2, 3, 4]]. */
  lemma ImplodeCase(keys: seq<char>, vals: seq<int>)
    requires keys == ['A', 'A', 'B', 'B', 'B'] && vals == [0, 1, 2, 3, 4]
    ensures OverImplode(keys, vals, Hashed) == Ok([[0, 1], [0, 1], [2, 3, 4], [2, 3, 4], [2, 3, 4]])
  {
    OverReduceIsRefReduce(keys, vals, Identity);
    ImplodeRef(keys, vals);
  }

  /** The flattened window concatenates the outputs of the two groups, A's first. */
  lemma FlattenAB(keys: seq<char>, vals: seq<int>, f: seq<int> -> seq<int>)
    requires keys == ['A', 'A', 'B', 'B', 'B'] && vals == [0, 1, 2, 3, 4]
    requires |f([0, 1]) + f([2, 3, 4])| == 5
    ensures OverFlatten(keys, vals, f, Hashed) == Ok(f([0, 1]) + f([2, 3, 4]))
  {
    GroupsOfAB(keys);
    var gs := HashGroups(keys);
    GroupingRowsBelow(keys, Hashed);
    assert Select(vals, gs[0].rows) == [0, 1];
    assert Select(vals, gs[1].rows) == [2, 3, 4];
    var outs := GroupOutputs(gs, vals, f);
    assert outs == [f([0, 1]), f([2, 3, 4])];
    assert outs[..1][..0] == [];
    assert Concat(outs[..1]) == f([0, 1]);
    assert outs[..|outs| - 1] == outs[..1];
    assert Concat(outs) == f([0, 1]) + f([2, 3, 4]);
  }

  /** `values.implode().over("groups").flatten()` gives the values back: [0, 1, 2, 3, 4]. */
  lemma FlattenCase(keys: seq<char>, vals: seq<int>)
    requires keys == ['A', 'A', 'B', 'B', 'B'] && vals == [0, 1, 2, 3, 4]
    ensures OverFlatten(keys, vals, Identity, Hashed) == Ok([0, 1, 2, 3, 4])
  {
    assert Identity([0, 1]) + Identity([2, 3, 4]) == [0, 1, 2, 3, 4];
    FlattenAB(keys, vals, Identity);
  }

  lemma ReverseValues()
    ensures Reverse([0, 1]) == [1, 0]
    ensures Reverse([2, 3, 4]) == [4, 3, 2]
  {
    var r := Reverse([2, 3, 4]);
    assert r[0] == 4 && r[1] == 3 && r[2] == 2;
  }

  /** `values.reverse().implode().over("groups").flatten()` reverses within each group: [1, 0, 4, 3, 2]. */
  lemma ReverseFlattenCase(keys: seq<char>, vals: seq<int>)
    requires keys == ['A', 'A', 'B', 'B', 'B'] && vals == [0, 1, 2, 3, 4]
    ensures OverFlatten(keys, vals, Reverse, Hashed) == Ok([1, 0, 4, 3, 2])
  {
    ReverseValues();
    assert Reverse([0, 1]) + Reverse([2, 3, 4]) == [1, 0, 4, 3, 2];
    FlattenAB(keys, vals, Reverse);
  }

  // ---------------------------------------------------------------------------
  // Row-preserving expressions
  // ---------------------------------------------------------------------------

  /** Groups of x = [5, 5, 4, 4, 2, 2]: three runs of two rows. */
  lemma PositionsOfPairs(x: seq<int>)
    requires x == [5, 5, 4, 4, 2, 2]
    ensures Pos(x, 0) == 0 && Pos(x, 1) == 1 && Pos(x, 2) == 0
    ensures Pos(x, 3) == 1 && Pos(x, 4) == 0 && Pos(x, 5) == 1
  {
    MembersOfRun(x, 5, 0, 2);
    MembersOfRun(x, 4, 2, 4);
    MembersOfRun(x, 2, 4, 6);
    PosFromMembers(x, 0, 0);
    PosFromMembers(x, 1, 1);
    PosFromMembers(x, 2, 0);
    PosFromMembers(x, 3, 1);
    PosFromMembers(x, 4, 0);
    PosFromMembers(x, 5, 1);
  }

  /** `arange(0, count()).over("x")` with x = [5, 5, 4, 4, 2, 2] gives [0, 1, 0, 1, 0, 1]. */
  lemma ArangeCase(x: seq<int>)
    requires x == [5, 5, 4, 4, 2, 2]
    ensures OverMap(x, x, Arange, Hashed) == Ok([0, 1, 0, 1, 0, 1])
  {
    ArangeOver(x, x);
    PositionsOfPairs(x);
    var r := OverMap(x, x, Arange, Hashed).value;
    assert |r| == 6;
    assert r[0] == 0 && r[1] == 1 && r[2] == 0 && r[3] == 1 && r[4] == 0 && r[5] == 1;
    assert r == [0, 1, 0, 1, 0, 1];
  }

  /** On a frame with no rows the window has no groups and yields no rows, without error. */
  lemma ArangeNoRows(x: seq<int>)
    requires x == []
    ensures OverMap(x, x, Arange, Hashed) == Ok([])
  {
    ArangeOver(x, x);
  }

  /** Two runs of three rows: a = rows 0, 1, 2 and b = rows 3, 4, 5. */
  lemma PositionsOfTriples<K>(keys: seq<K>, a: K, b: K)
    requires a != b && keys == [a, a, a, b, b, b]
    ensures Members(keys, a) == [0, 1, 2] && Members(keys, b) == [3, 4, 5]
    ensures Pos(keys, 0) == 0 && Pos(keys, 1) == 1 && Pos(keys, 2) == 2
    ensures Pos(keys, 3) == 0 && Pos(keys, 4) == 1 && Pos(keys, 5) == 2
  {
    MembersOfRun(keys, a, 0, 3);
    MembersOfRun(keys, b, 3, 6);
    PosFromMembers(keys, 0, 0);
    PosFromMembers(keys, 1, 1);
    PosFromMembers(keys, 2, 2);
    PosFromMembers(keys, 3, 0);
    PosFromMembers(keys, 4, 1);
    PosFromMembers(keys, 5, 2);
  }

  lemma ShiftRef(keys: seq<char>, vals: seq<Option<int>>, last: Option<int>)
    requires keys == ['a', 'a', 'a', 'b', 'b', 'b']
    requires vals == [Some(1), Some(2), Some(3), Some(4), Some(5), last]
    ensures LengthPreserving(Shift<int>)
    ensures RefMap(keys, vals, Shift) == [None, Some(1), Some(2), None, Some(4), Some(5)]
  {
    PositionsOfTriples(keys, 'a', 'b');
    var ga, gb := [Some(1), Some(2), Some(3)], [Some(4), Some(5), last];
    RefMapRow(keys, vals, Shift, 0, ga, 0);
    RefMapRow(keys, vals, Shift, 1, ga, 1);
    RefMapRow(keys, vals, Shift, 2, ga, 2);
    RefMapRow(keys, vals, Shift, 3, gb, 0);
    RefMapRow(keys, vals, Shift, 4, gb, 1);
    RefMapRow(keys, vals, Shift, 5, gb, 2);
  }

  /** `total.shift().over("group")` with groups [a, a, a, b, b, b] gives [null, 1, 2, null, 4, 5];
      the last value, NaN in the source frame, never reaches the output. */
  lemma ShiftCase(keys: seq<char>, vals: seq<Option<int>>, last: Option<int>)
    requires keys == ['a', 'a', 'a', 'b', 'b', 'b']
    requires vals == [Some(1), Some(2), Some(3), Some(4), Some(5), last]
    ensures OverMap(keys, vals, Shift, Hashed) == Ok([None, Some(1), Some(2), None, Some(4), Some(5)])
  {
    ShiftRef(keys, vals, last);
    OverMapIsRefMap(keys, vals, Shift);
  }

  lemma CumMaxValues()
    ensures CumMax([20, 40, 30]) == [20, 40, 40]
    ensures CumMax([2, 4, 3]) == [2, 4, 4]
  {
    assert [20, 40, 30][..2] == [20, 40] && [20, 40][..1] == [20] && [20][..0] == [];
    assert [2, 4, 3][..2] == [2, 4] && [2, 4][..1] == [2] && [2][..0] == [];
  }

  lemma CumMaxRef(keys: seq<int>, vals: seq<int>)
    requires keys == [0, 0, 0, 1, 1, 1] && vals == [20, 40, 30, 2, 4, 3]
    ensures LengthPreserving(CumMax)
    ensures RefMap(keys, vals, CumMax) == [20, 40, 40, 2, 4, 4]
  {
    PositionsOfTriples(keys, 0, 1);
    CumMaxValues();
    var ga, gb := [20, 40, 30], [2, 4, 3];
    RefMapRow(keys, vals, CumMax, 0, ga, 0);
    RefMapRow(keys, vals, CumMax, 1, ga, 1);
    RefMapRow(keys, vals, CumMax, 2, ga, 2);
    RefMapRow(keys, vals, CumMax, 3, gb, 0);
    RefMapRow(keys, vals, CumMax, 4, gb, 1);
    RefMapRow(keys, vals, CumMax, 5, gb, 2);
  }

  /** `val.cumulative_eval(element().max()).over("group")` restarts the running maximum in each group:
      [20, 40, 30, 2, 4, 3] gives [20, 40, 40, 2, 4, 4]. */
  lemma CumMaxCase(keys: seq<int>, vals: seq<int>)
    requires keys == [0, 0, 0, 1, 1, 1] && vals == [20, 40, 30, 2, 4, 3]
    ensures OverMap(keys, vals, CumMax, Hashed) == Ok([20, 40, 40, 2, 4, 4])
  {
    CumMaxRef(keys, vals);
    OverMapIsRefMap(keys, vals, CumMax);
  }

  lemma CumMeanValues()
    ensures CumMean([Some(1), None]) == [Some(1.0), Some(1.0)]
    ensures CumMean([Some(3)]) == [Some(3.0)]
    ensures CumMean([None]) == [None]
  {
    assert [Some(1), None][..1] == [Some(1)] && [Some(1), None][..2] == [Some(1), None];
    assert [Some(1)][..0] == [] && [Some(3)][..1] == [Some(3)] && [Some(3)][..0] == [];
    var n: seq<Option<int>> := [None];
    assert n[..1] == n;
    NullRowKeepsMean([Some(1), None]);
    NullRowKeepsMean(n);
  }

  lemma CumMeanRef(keys: seq<int>, vals: seq<Option<int>>)
    requires keys == [1, 1, 2, 3] && vals == [Some(1), None, Some(3), None]
    ensures LengthPreserving(CumMean)
    ensures RefMap(keys, vals, CumMean) == [Some(1.0), Some(1.0), Some(3.0), None]
  {
    MembersOfRun(keys, 1, 0, 2);
    MembersOfRun(keys, 2, 2, 3);
    MembersOfRun(keys, 3, 3, 4);
    PosFromMembers(keys, 0, 0);
    PosFromMembers(keys, 1, 1);
    PosFromMembers(keys, 2, 0);
    PosFromMembers(keys, 3, 0);
    CumMeanValues();
    RefMapRow(keys, vals, CumMean, 0, [Some(1), None], 0);
    RefMapRow(keys, vals, CumMean, 1, [Some(1), None], 1);
    RefMapRow(keys, vals, CumMean, 2, [Some(3)], 0);
    RefMapRow(keys, vals, CumMean, 3, [None], 0);
  }

  /** `value.cumulative_eval(element().mean()).over("group")` with group [1, 1, 2, 3] and value
      [1, null, 3, null] gives [1.0, 1.0, 3.0, null]: the null row repeats its group's running
      mean, and a group holding only a null stays null. */
  lemma CumMeanCase(keys: seq<int>, vals: seq<Option<int>>)
    requires keys == [1, 1, 2, 3] && vals == [Some(1), None, Some(3), None]
    ensures OverMap(keys, vals, CumMean, Hashed) == Ok([Some(1.0), Some(1.0), Some(3.0), None])
  {
    CumMeanRef(keys, vals);
    OverMapIsRefMap(keys, vals, CumMean);
  }

  lemma RankValues()
    ensures OrdinalRank([1, 2]) == [1, 2]
    ensures OrdinalRank([3]) == [1]
  {
    assert CountBefore([1, 2], 0, 2) == 0;
    assert CountBefore([1, 2], 1, 2) == 1;
    assert CountBefore([3], 0, 1) == 0;
  }

  /** Customers ["0", "0", "1"]: rows 0, 1 and row 2. */
  lemma CustomerGroups(keys: seq<char>)
    requires keys == ['0', '0', '1']
    ensures Members(keys, '0') == [0, 1] && Members(keys, '1') == [2]
    ensures Pos(keys, 0) == 0 && Pos(keys, 1) == 1 && Pos(keys, 2) == 0
  {
    MembersOfRun(keys, '0', 0, 2);
    MembersOfRun(keys, '1', 2, 3);
    PosFromMembers(keys, 0, 0);
    PosFromMembers(keys, 1, 1);
    PosFromMembers(keys, 2, 0);
  }

  lemma RankRef(keys: seq<char>, dates: seq<int>)
    requires keys == ['0', '0', '1'] && dates == [1, 2, 3]
    ensures LengthPreserving(OrdinalRank)
    ensures RefMap(keys, dates, OrdinalRank) == [1, 2, 1]
  {
    CustomerGroups(keys);
    RankValues();
    RefMapRow(keys, dates, OrdinalRank, 0, [1, 2], 0);
    RefMapRow(keys, dates, OrdinalRank, 1, [1, 2], 1);
    RefMapRow(keys, dates, OrdinalRank, 2, [3], 0);
  }

  /** `date.rank(method="ordinal").over("customer_ID")` with customers ["0", "0", "1"] and dates [1, 2, 3]
      gives [1, 2, 1], on the sorted fast path that the sorted frame takes as on the hashed path. */
  lemma RankCase(keys: seq<char>, dates: seq<int>, mode: Mode)
    requires keys == ['0', '0', '1'] && dates == [1, 2, 3]
    ensures OverMap(keys, dates, OrdinalRank, mode) == Ok([1, 2, 1])
  {
    RankRef(keys, dates);
    OverMapIsRefMap(keys, dates, OrdinalRank);
    assert Contiguous(keys);
    SortedAgreesWithHashed(keys, dates, OrdinalRank);
  }

  lemma RankCountRef(keys: seq<char>, dates: seq<int>)
    requires keys == ['0', '0', '1'] && dates == [1, 2, 3]
    ensures RefReduce(keys, dates, CountRows) == [2, 2, 1]
  {
    CustomerGroups(keys);
    RefReduceAt(keys, dates, CountRows, 0, [1, 2]);
    RefReduceAt(keys, dates, CountRows, 1, [1, 2]);
    RefReduceAt(keys, dates, CountRows, 2, [3]);
  }

  /** `count("date").over("customer_ID")` in the same frame gives [2, 2, 1] on either path. */
  lemma RankCountCase(keys: seq<char>, dates: seq<int>, mode: Mode)
    requires keys == ['0', '0', '1'] && dates == [1, 2, 3]
    ensures OverReduce(keys, dates, CountRows, mode) == Ok([2, 2, 1])
  {
    OverReduceIsRefReduce(keys, dates, CountRows);
    RankCountRef(keys, dates);
    assert Contiguous(keys);
    SortedAgreesWithHashed(keys, dates, Broadcast(CountRows));
  }
}
