/** The per-group expressions that the window tests run under `over`: aggregates
    (sum, max, count, mean, filter-then-mean) and row-preserving expressions
    (shift, arange, cumulative max and mean, ordinal rank, reverse). Each is stated on
    one group; the lemmas place it under a window and check the expected
    columns of the window tests. Values are integers; a null is None. */
module WindowOps {
  import opened Wrappers
  import opened Window

  // ---------------------------------------------------------------------------
  // Aggregates
  // ---------------------------------------------------------------------------

  /** Null-skipping addition: a null operand contributes nothing. */
  function AddSkipNull(a: Option<int>, b: Option<int>): Option<int>
  {
    match (a, b)
    case (None, _) => b
    case (_, None) => a
    case (Some(x), Some(y)) => Some(x + y)
  }

  /** `sum()`: the total of the non-null values, and null when the group has none. */
  function SumOf(s: seq<Option<int>>): (r: Option<int>)
    ensures r.None? <==> forall i :: 0 <= i < |s| ==> s[i].None?
  {
    if s == [] then None
    else AddSkipNull(SumOf(s[..|s| - 1]), s[|s| - 1])
  }

  /** The sum of a group split in two is the sum of the sums of the parts. */
  lemma {:induction false} SumOfConcat(s: seq<Option<int>>, t: seq<Option<int>>)
    ensures SumOf(s + t) == AddSkipNull(SumOf(s), SumOf(t))
    decreases |t|
  {
    if t != [] {
      var n := |t| - 1;
      assert (s + t)[..|s + t| - 1] == s + t[..n];
      SumOfConcat(s, t[..n]);
    } else {
      assert s + t == s;
    }
  }

  function MaxSkipNull(a: Option<int>, b: Option<int>): Option<int>
  {
    match (a, b)
    case (None, _) => b
    case (_, None) => a
    case (Some(x), Some(y)) => if x >= y then a else b
  }

  /** `max()`: the largest non-null value, and null when the group has none. */
  function MaxOf(s: seq<Option<int>>): (r: Option<int>)
    ensures r.None? <==> forall i :: 0 <= i < |s| ==> s[i].None?
    ensures r.Some? ==> r in s
    ensures r.Some? ==> forall i :: 0 <= i < |s| && s[i].Some? ==> s[i].value <= r.value
  {
    if s == [] then None
    else MaxSkipNull(MaxOf(s[..|s| - 1]), s[|s| - 1])
  }

  /** `count()`: the number of rows of the group. */
  function CountRows<T>(s: seq<T>): nat
  {
    |s|
  }

  /** `count(col)`: the number of non-null values of the group. */
  function CountValid(s: seq<Option<int>>): (r: nat)
    ensures r <= |s|
    ensures r == |s| <==> forall i :: 0 <= i < |s| ==> s[i].Some?
    ensures r == 0 <==> forall i :: 0 <= i < |s| ==> s[i].None?
  {
    if s == [] then 0
    else CountValid(s[..|s| - 1]) + (if s[|s| - 1].Some? then 1 else 0)
  }

  function Total(s: seq<int>): int
  {
    if s == [] then 0 else Total(s[..|s| - 1]) + s[|s| - 1]
  }

  /** `mean()` over integers: the total divided by the count, and null on an empty group. */
  function MeanOf(s: seq<int>): (r: Option<real>)
    ensures r.None? <==> s == []
    ensures r.Some? ==> r.value * |s| as real == Total(s) as real
  {
    if s == [] then None else Some(Total(s) as real / |s| as real)
  }

  /** A row of the filtered-aggregation test: the value and the flag it is filtered on. */
  datatype FlaggedRow = FlaggedRow(field: int, flag: int)

  /** `field.filter(flag == 1)` inside a group: the kept values, in row order. */
  function KeepFlagged(s: seq<FlaggedRow>): (r: seq<int>)
    ensures |r| <= |s|
    ensures (forall i :: 0 <= i < |s| ==> s[i].flag == 1) ==> |r| == |s|
    ensures (forall i :: 0 <= i < |s| ==> s[i].flag != 1) ==> r == []
  {
    if s == [] then []
    else
      var n := |s| - 1;
      KeepFlagged(s[..n]) + (if s[n].flag == 1 then [s[n].field] else [])
  }

  /** The indices of the rows whose flag is 1, in increasing order. */
  function FlaggedRows(s: seq<FlaggedRow>): (r: seq<nat>)
    ensures forall p :: 0 <= p < |r| ==> r[p] < |s| && s[r[p]].flag == 1
    ensures forall p, q :: 0 <= p < q < |r| ==> r[p] < r[q]
    ensures forall i :: 0 <= i < |s| && s[i].flag == 1 ==> i in r
  {
    if s == [] then []
    else
      var n := |s| - 1;
      FlaggedRows(s[..n]) + (if s[n].flag == 1 then [n] else [])
  }

  /** The kept values are the fields of the flagged rows, one for each, in row order. */
  lemma {:induction false} KeepFlaggedInRowOrder(s: seq<FlaggedRow>)
    ensures |KeepFlagged(s)| == |FlaggedRows(s)|
    ensures forall p :: 0 <= p < |FlaggedRows(s)| ==> KeepFlagged(s)[p] == s[FlaggedRows(s)[p]].field
    decreases |s|
  {
    if s != [] {
      var n := |s| - 1;
      var t := s[..n];
      KeepFlaggedInRowOrder(t);
      var k, f := KeepFlagged(t), FlaggedRows(t);
      var r, g := KeepFlagged(s), FlaggedRows(s);
      assert r == k + (if s[n].flag == 1 then [s[n].field] else []);
      assert g == f + (if s[n].flag == 1 then [n] else []);
      forall p | 0 <= p < |g|
        ensures r[p] == s[g[p]].field
      {
        if p < |f| {
          assert r[p] == k[p] == t[f[p]].field;
          assert g[p] == f[p] < n;
        }
      }
    }
  }

  /** `field.filter(flag == 1).mean()`: the mean of the kept values of the group. */
  function FilteredMean(s: seq<FlaggedRow>): Option<real>
  {
    MeanOf(KeepFlagged(s))
  }

  /** `mean()` over a column with nulls: the sum of the non-null values over their count,
      and null when there are none. */
  function MeanSkipNull(s: seq<Option<int>>): (r: Option<real>)
    ensures r.None? <==> forall i :: 0 <= i < |s| ==> s[i].None?
    ensures r.Some? ==> SumOf(s).Some? && r.value * CountValid(s) as real == SumOf(s).value as real
  {
    var c := CountValid(s);
    if c == 0 then None
    else
      var total := SumOf(s);
      assert total.Some?;
      var m := total.value as real / c as real;
      assert m * c as real == total.value as real;
      Some(m)
  }

  // ---------------------------------------------------------------------------
  // Row-preserving expressions
  // ---------------------------------------------------------------------------

  /** `shift()`: every value moves one row down; the first row becomes null. */
  function Shift<T>(s: seq<Option<T>>): (r: seq<Option<T>>)
    ensures |r| == |s|
    ensures s != [] ==> r[0] == None
    ensures forall i :: 0 < i < |s| ==> r[i] == s[i - 1]
  {
    if s == [] then [] else [None] + s[..|s| - 1]
  }

  /** `arange(0, count())`: the row number 0, 1, ... of each row. */
  function Arange<T>(s: seq<T>): (r: seq<int>)
    ensures |r| == |s|
  {
    seq(|s|, i requires 0 <= i < |s| => i)
  }

  /** `cumulative_eval(element().mean())`: the mean of the non-null values up to each row. */
  function CumMean(s: seq<Option<int>>): (r: seq<Option<real>>)
    ensures |r| == |s|
  {
    seq(|s|, i requires 0 <= i < |s| => MeanSkipNull(s[..i + 1]))
  }

  /** Row i of the running mean is null exactly while every row so far is null, and a null
      row repeats the mean of the row before. */
  lemma {:induction false} CumMeanIsRunningMean(s: seq<Option<int>>)
    ensures forall i :: 0 <= i < |s| ==> (CumMean(s)[i].None? <==> forall j :: 0 <= j <= i ==> s[j].None?)
    ensures forall i :: 0 < i < |s| && s[i].None? ==> CumMean(s)[i] == CumMean(s)[i - 1]
  {
    var r := CumMean(s);
    forall i | 0 <= i < |s|
      ensures r[i].None? <==> forall j :: 0 <= j <= i ==> s[j].None?
    {
      CumMeanRow(s, i);
    }
    forall i | 0 < i < |s| && s[i].None?
      ensures r[i] == r[i - 1]
    {
      NullRowKeepsMean(s[..i + 1]);
      assert s[..i + 1][..i] == s[..i];
    }
  }

  /** Row i of the running mean is the mean of rows 0..i. */
  lemma CumMeanRow(s: seq<Option<int>>, i: nat)
    requires i < |s|
    ensures CumMean(s)[i] == MeanSkipNull(s[..i + 1])
    ensures CumMean(s)[i].None? <==> forall j :: 0 <= j <= i ==> s[j].None?
  {
    var t := s[..i + 1];
    assert forall j :: 0 <= j <= i ==> t[j] == s[j];
  }

  /** A trailing null row changes neither the sum nor the count, hence not the mean. */
  lemma NullRowKeepsMean(t: seq<Option<int>>)
    requires |t| > 0 && t[|t| - 1].None?
    ensures MeanSkipNull(t) == MeanSkipNull(t[..|t| - 1])
  {
    assert CountValid(t) == CountValid(t[..|t| - 1]);
    assert SumOf(t) == SumOf(t[..|t| - 1]);
  }

  /** `cumulative_eval(element().max())`: the running maximum. */
  function CumMax(s: seq<int>): (r: seq<int>)
    ensures |r| == |s|
  {
    if s == [] then []
    else
      var n := |s| - 1;
      var p := CumMax(s[..n]);
      p + [if n == 0 || s[n] >= p[n - 1] then s[n] else p[n - 1]]
  }

  /** Row i of the running maximum is the largest of rows 0..i, and is one of them. */
  lemma {:induction false} CumMaxIsRunningMax(s: seq<int>)
    ensures forall i, j :: 0 <= j <= i < |s| ==> s[j] <= CumMax(s)[i]
    ensures forall i :: 0 <= i < |s| ==> exists j :: 0 <= j <= i && CumMax(s)[i] == s[j]
    decreases |s|
  {
    if s != [] {
      var n := |s| - 1;
      var t := s[..n];
      CumMaxIsRunningMax(t);
      var r := CumMax(s);
      forall i | 0 <= i < |s|
        ensures exists j :: 0 <= j <= i && r[i] == s[j]
      {
        if i < n {
          var j :| 0 <= j <= i && CumMax(t)[i] == t[j];
          assert r[i] == s[j];
        } else if n > 0 && s[n] < CumMax(t)[n - 1] {
          var j :| 0 <= j <= n - 1 && CumMax(t)[n - 1] == t[j];
          assert r[i] == s[j];
        } else {
          assert r[i] == s[n];
        }
      }
      forall i, j | 0 <= j <= i < |s|
        ensures s[j] <= r[i]
      {
        if i < n {
          assert s[j] == t[j];
        } else if j < n {
          assert s[j] == t[j];
          assert t[j] <= CumMax(t)[n - 1];
        }
      }
    }
  }

  /** Row j comes before row i in an ordinal ranking: smaller value, or equal value and earlier row. */
  predicate RanksBefore(s: seq<int>, j: nat, i: nat)
    requires j < |s| && i < |s|
  {
    s[j] < s[i] || (s[j] == s[i] && j < i)
  }

  /** The number of rows below u that rank before row i. */
  function CountBefore(s: seq<int>, i: nat, u: nat): (c: nat)
    requires i < |s| && u <= |s|
    ensures c <= u
  {
    if u == 0 then 0
    else CountBefore(s, i, u - 1) + (if RanksBefore(s, u - 1, i) then 1 else 0)
  }

  /** `rank(method="ordinal")`: 1 plus the number of rows ranking before, ties broken by row order. */
  function OrdinalRank(s: seq<int>): (r: seq<int>)
    ensures |r| == |s|
  {
    seq(|s|, i requires 0 <= i < |s| => 1 + CountBefore(s, i, |s|))
  }

  /** A row ranking before another has fewer rows ranking before it, so a smaller count. */
  lemma {:induction false} CountBeforeGrows(s: seq<int>, i: nat, j: nat, u: nat)
    requires i < |s| && j < |s| && u <= |s| && RanksBefore(s, i, j)
    ensures CountBefore(s, j, u) >= CountBefore(s, i, u) + (if i < u then 1 else 0)
    decreases u
  {
    if u > 0 {
      CountBeforeGrows(s, i, j, u - 1);
    }
  }

  lemma {:induction false} CountBeforeSelf(s: seq<int>, i: nat, u: nat)
    requires i < |s| && u <= |s|
    ensures CountBefore(s, i, u) <= u - (if i < u then 1 else 0)
    decreases u
  {
    if u > 0 {
      CountBeforeSelf(s, i, u - 1);
    }
  }

  /** Ordinal ranks run from 1 to the group size, respect the value order, break ties by row order,
      and are pairwise distinct. */
  lemma OrdinalRankOrder(s: seq<int>)
    ensures forall i :: 0 <= i < |s| ==> 1 <= OrdinalRank(s)[i] <= |s|
    ensures forall i, j :: 0 <= i < |s| && 0 <= j < |s| && RanksBefore(s, i, j) ==> OrdinalRank(s)[i] < OrdinalRank(s)[j]
    ensures forall i, j :: 0 <= i < |s| && 0 <= j < |s| && i != j ==> OrdinalRank(s)[i] != OrdinalRank(s)[j]
  {
    forall i | 0 <= i < |s|
      ensures OrdinalRank(s)[i] <= |s|
    {
      CountBeforeSelf(s, i, |s|);
    }
    forall i, j | 0 <= i < |s| && 0 <= j < |s| && RanksBefore(s, i, j)
      ensures OrdinalRank(s)[i] < OrdinalRank(s)[j]
    {
      CountBeforeGrows(s, i, j, |s|);
    }
    forall i, j | 0 <= i < |s| && 0 <= j < |s| && i != j
      ensures OrdinalRank(s)[i] != OrdinalRank(s)[j]
    {
      if RanksBefore(s, i, j) {
        CountBeforeGrows(s, i, j, |s|);
      } else {
        CountBeforeGrows(s, j, i, |s|);
      }
    }
  }

  /** `reverse()`: the rows in the opposite order. */
  function Reverse<T>(s: seq<T>): (r: seq<T>)
    ensures |r| == |s|
    ensures forall i :: 0 <= i < |s| ==> r[i] == s[|s| - 1 - i]
  {
    if s == [] then [] else [s[|s| - 1]] + Reverse(s[..|s| - 1])
  }

  // ---------------------------------------------------------------------------
  // The expressions under a window
  // ---------------------------------------------------------------------------

  /** `shift().over(keys)` never moves a value across groups: the first row of a group gets null,
      every other row the value of the previous row of its own group. */
  lemma ShiftOver<K, T(!new)>(keys: seq<K>, vals: seq<Option<T>>)
    requires |keys| == |vals|
    ensures OverMap(keys, vals, Shift, Hashed).Ok?
    ensures |OverMap(keys, vals, Shift, Hashed).value| == |keys|
    ensures forall i :: 0 <= i < |keys| && Pos(keys, i) == 0 ==> OverMap(keys, vals, Shift, Hashed).value[i] == None
    ensures forall i :: 0 <= i < |keys| && Pos(keys, i) > 0 ==>
      Pos(keys, i) - 1 < |Members(keys, keys[i])| &&
      OverMap(keys, vals, Shift, Hashed).value[i] == vals[Members(keys, keys[i])[Pos(keys, i) - 1]]
  {
    OverMapIsRefMap(keys, vals, Shift);
    ShiftRows(keys, vals);
  }

  /** Row by row, the reference map of `shift()` takes the previous value of the row's own group. */
  lemma ShiftRows<K, T(!new)>(keys: seq<K>, vals: seq<Option<T>>)
    requires |keys| == |vals|
    ensures LengthPreserving(Shift<T>) && |RefMap(keys, vals, Shift)| == |keys|
    ensures forall i :: 0 <= i < |keys| && Pos(keys, i) == 0 ==> RefMap(keys, vals, Shift)[i] == None
    ensures forall i :: 0 <= i < |keys| && Pos(keys, i) > 0 ==>
      Pos(keys, i) - 1 < |Members(keys, keys[i])| &&
      RefMap(keys, vals, Shift)[i] == vals[Members(keys, keys[i])[Pos(keys, i) - 1]]
  {
    var r := RefMap(keys, vals, Shift);
    forall i | 0 <= i < |keys|
      ensures Pos(keys, i) < |Members(keys, keys[i])|
      ensures Pos(keys, i) == 0 ==> r[i] == None
      ensures Pos(keys, i) > 0 ==> r[i] == vals[Members(keys, keys[i])[Pos(keys, i) - 1]]
    {
      RefMapAt(keys, vals, Shift, i);
      var p := Pos(keys, i);
      var g := GroupValues(keys, vals, keys[i]);
      assert r[i] == Shift(g)[p];
      if p > 0 {
        GroupValuesAt(keys, vals, keys[i], p - 1);
        assert Shift(g)[p] == g[p - 1];
      }
    }
  }

  /** `arange(0, count()).over(keys)` numbers the rows of each group from 0, in row order. */
  lemma ArangeOver<K, T(!new)>(keys: seq<K>, vals: seq<T>)
    requires |keys| == |vals|
    ensures OverMap(keys, vals, Arange, Hashed).Ok?
    ensures |OverMap(keys, vals, Arange, Hashed).value| == |keys|
    ensures forall i :: 0 <= i < |keys| ==> OverMap(keys, vals, Arange, Hashed).value[i] == Pos(keys, i)
  {
    OverMapIsRefMap(keys, vals, Arange);
    var r := RefMap(keys, vals, Arange);
    forall i | 0 <= i < |keys|
      ensures r[i] == Pos(keys, i)
    {
      RefMapAt(keys, vals, Arange, i);
    }
  }

  /** `count().over(keys)` gives every row the size of its group. */
  lemma CountOver<K, T(!new)>(keys: seq<K>, vals: seq<T>)
    requires |keys| == |vals|
    ensures OverReduce(keys, vals, CountRows, Hashed).Ok?
    ensures |OverReduce(keys, vals, CountRows, Hashed).value| == |keys|
    ensures forall i :: 0 <= i < |keys| ==> OverReduce(keys, vals, CountRows, Hashed).value[i] == |Members(keys, keys[i])|
  {
    OverReduceIsRefReduce(keys, vals, CountRows);
    var r := RefReduce(keys, vals, CountRows);
    forall i | 0 <= i < |keys|
      ensures r[i] == |Members(keys, keys[i])|
    {
      assert r[i] == CountRows(GroupValues(keys, vals, keys[i]));
    }
  }

  /** Within a group, an earlier row has a smaller position. */
  lemma PosMonotone<K>(keys: seq<K>, i: nat, j: nat)
    requires i < j < |keys| && keys[i] == keys[j]
    ensures Pos(keys, i) < Pos(keys, j)
  {
    PosInMembers(keys, i);
    PosInMembers(keys, j);
    MembersComplete(keys, keys[i]);
  }

  /** `rank("ordinal").over(keys)`: inside each group the ranks follow the values, ties broken by row order,
      they are distinct and run from 1 to the group size. */
  lemma RankOver<K>(keys: seq<K>, vals: seq<int>)
    requires |keys| == |vals|
    ensures OverMap(keys, vals, OrdinalRank, Hashed).Ok?
    ensures |OverMap(keys, vals, OrdinalRank, Hashed).value| == |keys|
    ensures forall i :: 0 <= i < |keys| ==>
      1 <= OverMap(keys, vals, OrdinalRank, Hashed).value[i] <= |Members(keys, keys[i])|
    ensures forall i, j ::
      (0 <= i < |keys| && 0 <= j < |keys| && keys[i] == keys[j] && (vals[i] < vals[j] || (vals[i] == vals[j] && i < j))) ==>
      OverMap(keys, vals, OrdinalRank, Hashed).value[i] < OverMap(keys, vals, OrdinalRank, Hashed).value[j]
  {
    OverMapIsRefMap(keys, vals, OrdinalRank);
    var r := OverMap(keys, vals, OrdinalRank, Hashed).value;
    forall i | 0 <= i < |keys|
      ensures 1 <= r[i] <= |Members(keys, keys[i])|
    {
      PosInMembers(keys, i);
      OrdinalRankOrder(GroupValues(keys, vals, keys[i]));
    }
    forall i, j | 0 <= i < |keys| && 0 <= j < |keys| && keys[i] == keys[j] && (vals[i] < vals[j] || (vals[i] == vals[j] && i < j))
      ensures r[i] < r[j]
    {
      PosInMembers(keys, i);
      PosInMembers(keys, j);
      if i < j {
        PosMonotone(keys, i, j);
      } else if j < i {
        PosMonotone(keys, j, i);
      }
      var gv := GroupValues(keys, vals, keys[i]);
      OrdinalRankOrder(gv);
      assert RanksBefore(gv, Pos(keys, i), Pos(keys, j));
    }
  }

  /** Null keys form exactly one group, holding all the null-keyed rows and nothing else. */
  lemma NullKeysOneGroup<K>(keys: seq<Option<K>>)
    ensures forall j :: j in Members(keys, None) <==> 0 <= j < |keys| && keys[j].None?
  {
    MembersComplete(keys, None);
  }

  /** Ascending order with nulls first, the order in which a column flagged as sorted keeps its nulls. */
  predicate NullsFirstLe(a: Option<int>, b: Option<int>) {
    match (a, b)
    case (None, _) => true
    case (Some(_), None) => false
    case (Some(x), Some(y)) => x <= y
  }

  ghost predicate SortedNullsFirst(keys: seq<Option<int>>) {
    forall i, j :: 0 <= i < j < |keys| ==> NullsFirstLe(keys[i], keys[j])
  }

  /** A column sorted with nulls first keeps equal keys, nulls included, in one run,
      so the sorted fast path may be taken on it. */
  lemma SortedNullsFirstContiguous(keys: seq<Option<int>>)
    requires SortedNullsFirst(keys)
    ensures Contiguous(keys)
  {
    forall i, j, l | 0 <= i < j < l < |keys| && keys[i] == keys[l]
      ensures keys[j] == keys[i]
    {
      assert NullsFirstLe(keys[i], keys[j]) && NullsFirstLe(keys[j], keys[l]);
    }
  }

  /** The key of a window over several columns: the tuple of the row's values. */
  function Zip<A, B>(a: seq<A>, b: seq<B>): (r: seq<(A, B)>)
    requires |a| == |b|
    ensures |r| == |a|
  {
    seq(|a|, i requires 0 <= i < |a| => (a[i], b[i]))
  }

  /** Over two columns, two rows are in one group exactly when they agree on both. */
  lemma TupleKeyGroups<A, B>(a: seq<A>, b: seq<B>, i: nat)
    requires |a| == |b| && i < |a|
    ensures forall j :: j in Members(Zip(a, b), (a[i], b[i])) <==> 0 <= j < |a| && a[j] == a[i] && b[j] == b[i]
  {
    MembersComplete(Zip(a, b), (a[i], b[i]));
  }

  /** When one key column has no repeated value, every group is a single row: row i gets agg of its own value. */
  lemma DistinctKeySingletons<K, V(!new), R>(keys: seq<K>, vals: seq<V>, agg: seq<V> -> R)
    requires |keys| == |vals|
    requires forall i, j :: 0 <= i < j < |keys| ==> keys[i] != keys[j]
    ensures OverReduce(keys, vals, agg, Hashed).Ok?
    ensures |OverReduce(keys, vals, agg, Hashed).value| == |keys|
    ensures forall i :: 0 <= i < |keys| ==> OverReduce(keys, vals, agg, Hashed).value[i] == agg([vals[i]])
  {
    OverReduceIsRefReduce(keys, vals, agg);
    forall i | 0 <= i < |keys|
      ensures GroupValues(keys, vals, keys[i]) == [vals[i]]
    {
      MembersComplete(keys, keys[i]);
      var m := Members(keys, keys[i]);
      assert i in m;
      forall x | 0 <= x < |m|
        ensures m[x] == i
      {
      }
      IncreasingIndex(m, |m| - 1, 0);
      assert m == [i];
    }
  }
}
