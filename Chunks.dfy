/**
 * Building a series or a frame from an iterator chunk by chunk (`iterable_to_pyseries`,
 * `iterable_to_pydf`): slices are read with `islice`, and each slice is appended to the series
 * or frame made from the first one; several chunks end in one rechunk.
 */
module Chunks {
  import opened Wrappers
  import opened DataTypes
  import opened PyValues

  function Flatten(chunks: seq<seq<PyValue>>): (r: seq<PyValue>)
  {
    if |chunks| == 0 then [] else Flatten(chunks[..|chunks| - 1]) + chunks[|chunks| - 1]
  }

  lemma FlattenSnoc(chunks: seq<seq<PyValue>>, c: seq<PyValue>)
    ensures Flatten(chunks + [c]) == Flatten(chunks) + c
  {
    assert (chunks + [c])[..|chunks|] == chunks;
  }

  lemma FlattenOne(c: seq<PyValue>)
    ensures Flatten([c]) == c
  {
    assert [c][..0] == [];
  }

  function Min(a: nat, b: nat): nat {
    if a <= b then a else b
  }

  function Max(a: nat, b: nat): nat {
    if a >= b then a else b
  }

  /** `list(islice(it, n))` on an iterator whose remaining items are `rest`. */
  function Slice(rest: seq<PyValue>, n: nat): (s: seq<PyValue>)
    ensures |s| == Min(n, |rest|) && s == rest[..|s|]
  {
    rest[..Min(n, |rest|)]
  }

  // ---------------------------------------------------------------------------
  // iterable_to_pyseries
  // ---------------------------------------------------------------------------

  /** A series held as a list of chunks. */
  class ChunkedSeries {
    var chunks: seq<seq<PyValue>>
    const dtype: DataType

    constructor (values: seq<PyValue>, dtype: DataType)
      ensures chunks == [values] && this.dtype == dtype
    {
      chunks := [values];
      this.dtype := dtype;
    }

    function Values(): seq<PyValue>
      reads this
    {
      Flatten(chunks)
    }

    /** `series.append(other, append_chunks=True)`. */
    method Append(values: seq<PyValue>)
      modifies this
      ensures chunks == old(chunks) + [values]
      ensures Values() == old(Values()) + values
    {
      FlattenSnoc(chunks, values);
      chunks := chunks + [values];
    }

    /** `series.rechunk(in_place=True)`. */
    method Rechunk()
      modifies this
      ensures chunks == [old(Values())]
      ensures Values() == old(Values())
    {
      FlattenOne(Values());
      chunks := [Values()];
    }
  }

  /** The dtype `pl.Series(values=..., dtype=dtype)` ends with: the given one, or the one the
      constructor infers from the values. */
  function SeriesDtype(values: seq<PyValue>, dtype: Option<DataType>, infer: seq<PyValue> -> DataType): DataType {
    if dtype.Some? then dtype.value else infer(values)
  }

  /** `iterable_to_pyseries`: the series holds every value of the iterator in one chunk, and its
      dtype is the one given or the one inferred from the first chunk; a chunk size of 0 reads
      nothing. */
  method IterableToSeries(values: seq<PyValue>, dtype: Option<DataType>, chunkSize: nat, infer: seq<PyValue> -> DataType)
    returns (s: ChunkedSeries)
    ensures fresh(s)
    ensures s.chunks == [if chunkSize == 0 then [] else values]
    ensures s.dtype == SeriesDtype(Slice(values, chunkSize), dtype, infer)
  {
    var rest := values;
    var series: ChunkedSeries? := null;
    var nChunks := 0;
    var dt := dtype;
    while true
      invariant |rest| <= |values| && rest == values[|values| - |rest|..]
      invariant series == null ==> rest == values && dt == dtype && nChunks == 0
      invariant series != null ==> |rest| < |values| && chunkSize > 0
      invariant series != null ==> fresh(series) && series.Values() == values[..|values| - |rest|]
      invariant series != null ==> |series.chunks| == nChunks + 1
      invariant series != null ==> dt == Some(series.dtype)
      invariant series != null ==> series.dtype == SeriesDtype(Slice(values, chunkSize), dtype, infer)
      decreases |rest|
    {
      var slice := Slice(rest, chunkSize);
      if |slice| == 0 {
        break;
      }
      var consumed := |values| - |rest|;
      assert values[..consumed + |slice|] == values[..consumed] + slice;
      rest := rest[|slice|..];
      if series == null {
        series := new ChunkedSeries(slice, SeriesDtype(slice, dt, infer));
        FlattenOne(slice);
        dt := Some(series.dtype);
      } else {
        series.Append(slice);
        nChunks := nChunks + 1;
      }
    }
    if series == null {
      series := new ChunkedSeries([], SeriesDtype([], dt, infer));
      assert Slice(values, chunkSize) == [];
    } else {
      assert rest == [] && values[..|values|] == values;
      if nChunks > 0 {
        series.Rechunk();
      } else {
        FlattenOne(series.chunks[0]);
        assert series.chunks == [series.chunks[0]];
      }
    }
    s := series;
  }

  // ---------------------------------------------------------------------------
  // iterable_to_pydf
  // ---------------------------------------------------------------------------

  /** The number of items a frame chunk aims at. */
  const ChunkElements: nat := 1000000

  /** `adaptive_chunk_size`: the given chunk size, else the item budget shared among the named
      columns, else None. */
  function AdaptiveSize(chunkSize: Option<nat>, nNames: nat): Option<nat> {
    if chunkSize.Some? && chunkSize.value != 0 then chunkSize
    else if nNames > 0 then Some(ChunkElements / nNames)
    else None
  }

  /** The first chunk size: `max(infer_schema_length or 0, adaptive_chunk_size or 1000)`. It is
      never 0, so the first read makes progress. */
  function FirstSize(chunkSize: Option<nat>, nNames: nat, inferLen: Option<nat>): (n: nat)
    ensures n > 0
    ensures inferLen.Some? ==> n >= inferLen.value
  {
    var a := AdaptiveSize(chunkSize, nNames);
    Max(if inferLen.Some? then inferLen.value else 0, if a.Some? && a.value != 0 then a.value else 1000)
  }

  /** After the first chunk, a size that differs from the adaptive one is replaced by the item
      budget shared among the first frame's columns. */
  predicate Resized(chunkSize: Option<nat>, nNames: nat, inferLen: Option<nat>) {
    Some(FirstSize(chunkSize, nNames, inferLen)) != AdaptiveSize(chunkSize, nNames)
  }

  function LaterSize(chunkSize: Option<nat>, nNames: nat, inferLen: Option<nat>, width: nat): nat
    requires Resized(chunkSize, nNames, inferLen) ==> width > 0
  {
    if Resized(chunkSize, nNames, inferLen) then ChunkElements / width else FirstSize(chunkSize, nNames, inferLen)
  }

  /** The rows of the first chunk. */
  function FirstRows(data: seq<PyValue>, chunkSize: Option<nat>, nNames: nat, inferLen: Option<nat>): seq<PyValue> {
    Slice(data, FirstSize(chunkSize, nNames, inferLen))
  }

  /** The rows read: all of them, unless the later size is 0. */
  function ReadRows(data: seq<PyValue>, chunkSize: Option<nat>, nNames: nat, inferLen: Option<nat>, width: seq<PyValue> -> nat): seq<PyValue>
    requires Resized(chunkSize, nNames, inferLen) ==> width(FirstRows(data, chunkSize, nNames, inferLen)) > 0
  {
    var first := FirstRows(data, chunkSize, nNames, inferLen);
    if LaterSize(chunkSize, nNames, inferLen, width(first)) == 0 then first else data
  }

  /** Every row is read unless the size is recomputed for a first frame wider than the item
      budget; then only the first chunk is. */
  lemma ReadRowsCases(data: seq<PyValue>, chunkSize: Option<nat>, nNames: nat, inferLen: Option<nat>, width: seq<PyValue> -> nat)
    requires Resized(chunkSize, nNames, inferLen) ==> width(FirstRows(data, chunkSize, nNames, inferLen)) > 0
    ensures !Resized(chunkSize, nNames, inferLen) || width(FirstRows(data, chunkSize, nNames, inferLen)) <= ChunkElements ==>
      ReadRows(data, chunkSize, nNames, inferLen, width) == data
    ensures Resized(chunkSize, nNames, inferLen) && width(FirstRows(data, chunkSize, nNames, inferLen)) > ChunkElements ==>
      ReadRows(data, chunkSize, nNames, inferLen, width) == FirstRows(data, chunkSize, nNames, inferLen)
  {
    var first := FirstRows(data, chunkSize, nNames, inferLen);
    if Resized(chunkSize, nNames, inferLen) && width(first) <= ChunkElements {
      assert ChunkElements / width(first) >= 1 by {
        DivAtLeastOne(ChunkElements, width(first));
      }
    }
  }

  lemma DivAtLeastOne(a: nat, b: nat)
    requires 0 < b <= a
    ensures a / b >= 1
  {
  }

  /** A chunk size given by the caller, at least the schema-inference length, is kept. */
  lemma GivenChunkSizeKept(c: nat, nNames: nat, inferLen: Option<nat>)
    requires c > 0 && (inferLen.None? || inferLen.value <= c)
    ensures FirstSize(Some(c), nNames, inferLen) == c
    ensures !Resized(Some(c), nNames, inferLen)
  {
  }

  /** Without a chunk size, 40 named columns share the budget: 25000 rows per chunk. */
  lemma NamedColumnsChunkSize()
    ensures FirstSize(None, 40, None) == 25000 && !Resized(None, 40, None)
  {
  }

  /** A frame held as a list of row chunks; `width` is its number of columns. */
  class ChunkedFrame {
    var chunks: seq<seq<PyValue>>
    const width: nat

    constructor (rows: seq<PyValue>, width: nat)
      ensures chunks == [rows] && this.width == width
    {
      chunks := [rows];
      this.width := width;
    }

    function Rows(): seq<PyValue>
      reads this
    {
      Flatten(chunks)
    }

    /** `df.vstack(other, in_place=True)`. */
    method VStack(rows: seq<PyValue>)
      modifies this
      ensures chunks == old(chunks) + [rows]
      ensures Rows() == old(Rows()) + rows
    {
      FlattenSnoc(chunks, rows);
      chunks := chunks + [rows];
    }

    /** `df.rechunk()`. */
    method Rechunk()
      modifies this
      ensures chunks == [old(Rows())]
      ensures Rows() == old(Rows())
    {
      FlattenOne(Rows());
      chunks := [Rows()];
    }
  }

  datatype ChunkError = ZeroDivision

  /** `iterable_to_pydf`: the first chunk fixes the frame's width; when the size is then
      recomputed from that width, a frame without columns divides by zero, and a frame too wide
      for the item budget gets size 0, which ends the read after the first chunk. Otherwise
      every row is read, and the frame is one chunk. */
  method IterableToFrame(data: seq<PyValue>, chunkSize: Option<nat>, nNames: nat, inferLen: Option<nat>, width: seq<PyValue> -> nat)
    returns (r: Result<ChunkedFrame, ChunkError>)
    ensures r.Err? <==> |data| > 0 && Resized(chunkSize, nNames, inferLen) && width(FirstRows(data, chunkSize, nNames, inferLen)) == 0
    ensures r.Ok? && |data| > 0 ==> fresh(r.value) && r.value.width == width(FirstRows(data, chunkSize, nNames, inferLen))
    ensures r.Ok? && |data| > 0 ==> r.value.chunks == [ReadRows(data, chunkSize, nNames, inferLen, width)]
    ensures r.Ok? && |data| == 0 ==> fresh(r.value) && r.value.chunks == [[]] && r.value.width == width([])
  {
    var size := FirstSize(chunkSize, nNames, inferLen);
    var first := FirstRows(data, chunkSize, nNames, inferLen);
    // The iterator's position: the rows before it were read.
    var pos := 0;
    var df: ChunkedFrame? := null;
    var nChunks := 0;
    while true
      invariant pos <= |data|
      invariant df == null ==> pos == 0 && size == FirstSize(chunkSize, nNames, inferLen) && nChunks == 0
      invariant df != null ==> 0 < pos && |first| <= pos
      invariant df != null ==> fresh(df) && df.Rows() == data[..pos] && df.width == width(first)
      invariant df != null ==> (Resized(chunkSize, nNames, inferLen) ==> width(first) > 0)
      invariant df != null ==> |df.chunks| == nChunks + 1
      invariant df != null ==> size == LaterSize(chunkSize, nNames, inferLen, width(first))
      invariant df != null && size == 0 ==> pos == |first|
      decreases |data| - pos
    {
      var values := Slice(data[pos..], size);
      if |values| == 0 {
        break;
      }
      assert data[..pos + |values|] == data[..pos] + values;
      pos := pos + |values|;
      if df == null {
        assert values == first;
        df := new ChunkedFrame(values, width(values));
        FlattenOne(values);
        if Resized(chunkSize, nNames, inferLen) {
          if df.width == 0 {
            return Err(ZeroDivision);
          }
          size := ChunkElements / df.width;
        }
      } else {
        df.VStack(values);
        nChunks := nChunks + 1;
      }
    }
    if df == null {
      df := new ChunkedFrame([], width([]));
      return Ok(df);
    }
    if size > 0 {
      assert pos == |data| && data[..|data|] == data;
    }
    if nChunks > 0 {
      df.Rechunk();
    } else {
      FlattenOne(df.chunks[0]);
      assert df.chunks == [df.chunks[0]];
    }
    return Ok(df);
  }
}
