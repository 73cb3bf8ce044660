/** The distance matrix: the sample count and the flat strictly-lower
    store, with symmetric access and construction from sequences. */
module DataSets {
  import opened Errors
  import opened Encoding
  import opened Kernel
  import opened Triangle

  datatype DataSet = DataSet(nsamples: nat, result: seq<int>)

  /** The store has a slot for every strictly-lower pair. */
  predicate Covers(ds: DataSet) {
    Tri(ds.nsamples) <= |ds.result|
  }

  function Min(i: nat, j: nat): nat { if i < j then i else j }
  function Max(i: nat, j: nat): nat { if i < j then j else i }

  /** Whether looking up (i, j) stays inside the store. */
  predicate InRange(ds: DataSet, i: nat, j: nat) {
    i == j || Index(Min(i, j), Max(i, j)) < |ds.result|
  }

  /** In a covering store every lookup inside the matrix is in range. */
  lemma CoveredInRange(ds: DataSet)
    requires Covers(ds)
    ensures forall i: nat, j: nat | i < ds.nsamples && j < ds.nsamples :: InRange(ds, i, j)
  {
    forall i: nat, j: nat | i < ds.nsamples && j < ds.nsamples
      ensures InRange(ds, i, j)
    {
      if i != j {
        IndexInBounds(Min(i, j), Max(i, j), ds.nsamples);
      }
    }
  }

  /** Element (i, j) of the matrix: 0 on the diagonal whatever the store
      holds, otherwise the slot of the unordered pair {i, j}. */
  function Get(ds: DataSet, i: nat, j: nat): (v: int)
    requires InRange(ds, i, j)
    ensures i == j ==> v == 0
    ensures i != j ==> v == ds.result[Index(Min(i, j), Max(i, j))]
  {
    if i < j then ds.result[j * (j - 1) / 2 + i]
    else if i > j then ds.result[i * (i - 1) / 2 + j]
    else 0
  }

  /** Access is symmetric. */
  lemma GetSymmetric(ds: DataSet, i: nat, j: nat)
    requires InRange(ds, i, j)
    ensures InRange(ds, j, i) && Get(ds, i, j) == Get(ds, j, i)
  {
  }

  /** The diagonal reads 0 whatever values the store holds. */
  lemma GetDiagonal(ds: DataSet, ds': DataSet, i: nat)
    requires ds.nsamples == ds'.nsamples
    ensures Get(ds, i, i) == Get(ds', i, i) == 0
  {
  }

  /** Row j of the store: the checked distances of data[j] to data[0..count). */
  function FillRow(data: seq<string>, j: nat, count: nat, maxDist: nat): (r: Result<seq<int>>)
    requires count <= j < |data| && |data| > 0 && SameLength(data)
    ensures r.Ok? <==> forall i: nat | i < count :: Distance(data[i], data[j]) <= maxDist
    ensures r.Ok? ==> |r.value| == count
    ensures r.Ok? ==> forall i: nat | i < count :: r.value[i] == Distance(data[i], data[j])
    ensures r.Err? ==> r.error == DistanceOverflow
  {
    if count == 0 then Ok([])
    else
      var prev :- FillRow(data, j, count - 1, maxDist);
      var d :- CheckedDistance(data[count - 1], data[j], maxDist);
      Ok(prev + [d])
  }

  /** The store for the first `rows` sequences, row after row. */
  function Fill(data: seq<string>, rows: nat, maxDist: nat): (r: Result<seq<int>>)
    requires rows <= |data| && |data| > 0 && SameLength(data)
    ensures r.Ok? ==> |r.value| == Tri(rows)
    ensures r.Err? ==> r.error == DistanceOverflow
  {
    if rows == 0 then Ok([])
    else
      var prev :- Fill(data, rows - 1, maxDist);
      var row :- FillRow(data, rows - 1, rows - 1, maxDist);
      Ok(prev + row)
  }

  /** The store is filled exactly when no pair among the first `rows`
      sequences is farther apart than `maxDist`. */
  lemma {:induction false} FillSucceeds(data: seq<string>, rows: nat, maxDist: nat)
    requires rows <= |data| && |data| > 0 && SameLength(data)
    ensures Fill(data, rows, maxDist).Ok? <==>
      forall i: nat, j: nat | i < j < rows :: Distance(data[i], data[j]) <= maxDist
    decreases rows
  {
    if rows > 0 {
      FillSucceeds(data, rows - 1, maxDist);
      var row := FillRow(data, rows - 1, rows - 1, maxDist);
      if Fill(data, rows, maxDist).Ok? {
        forall i: nat, j: nat | i < j < rows
          ensures Distance(data[i], data[j]) <= maxDist
        {
          if j == rows - 1 {
            assert row.Ok?;
          }
        }
      }
    }
  }

  /** A filled store holds at slot Index(i, j) the distance of sequences
      i and j. */
  lemma {:induction false} FillEntries(data: seq<string>, rows: nat, maxDist: nat)
    requires rows <= |data| && |data| > 0 && SameLength(data)
    ensures Fill(data, rows, maxDist).Ok? ==> forall i: nat, j: nat | i < j < rows ::
      Index(i, j) < |Fill(data, rows, maxDist).value| &&
      Fill(data, rows, maxDist).value[Index(i, j)] == Distance(data[i], data[j])
    decreases rows
  {
    if rows > 0 && Fill(data, rows, maxDist).Ok? {
      FillEntries(data, rows - 1, maxDist);
      var prev := Fill(data, rows - 1, maxDist).value;
      var row := FillRow(data, rows - 1, rows - 1, maxDist).value;
      var v := Fill(data, rows, maxDist).value;
      assert v == prev + row;
      forall i: nat, j: nat | i < j < rows
        ensures Index(i, j) < |v| && v[Index(i, j)] == Distance(data[i], data[j])
      {
        if j < rows - 1 {
          IndexInBounds(i, j, rows - 1);
        }
      }
    }
  }

  /** No pair of `data` is farther apart than `maxDist`. */
  predicate FitsAccumulator(data: seq<string>, maxDist: nat)
    requires |data| > 0 && SameLength(data)
  {
    forall i: nat, j: nat | 0 <= i < j < |data| :: Distance(data[i], data[j]) <= maxDist
  }

  /** Construction from a list of sequences whose accumulator holds at most
      `maxDist`: validation failures first, then the overflow failure, and
      otherwise a matrix with one row per sequence whose off-diagonal
      entries are the pairwise distances. */
  function FromStrings(data: seq<string>, maxDist: nat): (r: Result<DataSet>)
    ensures r == Err(EmptySequence) <==> |data| == 0 || |data[0]| == 0
    ensures r == Err(LengthMismatch) <==> |data| > 0 && |data[0]| > 0 && !SameLength(data)
    ensures r == Err(DistanceOverflow) <==>
      |data| > 0 && |data[0]| > 0 && SameLength(data) && !FitsAccumulator(data, maxDist)
    ensures r.Ok? ==> r.value.nsamples == |data| && |r.value.result| == Tri(|data|)
    ensures r.Ok? ==> forall i: nat, j: nat | i < |data| && j < |data| ::
      InRange(r.value, i, j) && Get(r.value, i, j) == (if i == j then 0 else Distance(data[i], data[j]))
  {
    match Validate(data)
    case Fail(e) => Err(e)
    case Pass =>
      FillSucceeds(data, |data|, maxDist);
      FillEntries(data, |data|, maxDist);
      var values :- Fill(data, |data|, maxDist);
      var ds := DataSet(|data|, values);
      CoveredInRange(ds);
      FromStringsEntries(data, ds);
      Ok(ds)
  }

  lemma FromStringsEntries(data: seq<string>, ds: DataSet)
    requires |data| > 0 && SameLength(data)
    requires ds.nsamples == |data| && Covers(ds)
    requires forall i: nat, j: nat | i < j < |data| ::
      Index(i, j) < |ds.result| && ds.result[Index(i, j)] == Distance(data[i], data[j])
    ensures forall i: nat, j: nat | i < |data| && j < |data| ::
      InRange(ds, i, j) && Get(ds, i, j) == (if i == j then 0 else Distance(data[i], data[j]))
  {
    CoveredInRange(ds);
    forall i: nat, j: nat | i < |data| && j < |data| && j < i
      ensures Get(ds, i, j) == Distance(data[i], data[j])
    {
      DistanceSymmetric(data[i], data[j]);
    }
  }
}
