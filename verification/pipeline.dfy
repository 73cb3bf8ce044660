/** The library's whole path for a list of strings: build the matrix,
    `dump` it, and read the file back with the file constructor. */
module Pipeline {
  import opened Decimal
  import opened Triangle
  import opened Kernel
  import opened DataSets
  import opened Csv
  import opened Reload

  /** A matrix built from strings whose distances fit an `int` holds only
      values `std::stoi` can return. */
  lemma FromStringsInt32(data: seq<string>, maxDist: nat)
    requires maxDist <= IntMax && FromStrings(data, maxDist).Ok?
    ensures Int32Entries(FromStrings(data, maxDist).value)
  {
    var ds := FromStrings(data, maxDist).value;
    assert SameLength(data) && FitsAccumulator(data, maxDist);
    forall p | 0 <= p < |ds.result|
      ensures IsInt32(ds.result[p])
    {
      IndexOnto(p, |data|);
      var (i, j) := Unindex(p);
      assert Get(ds, i, j) == Distance(data[i], data[j]) <= maxDist;
    }
  }

  /** From strings to the file and back: the matrix of `data`, dumped and
      reloaded, has one sample per string, 0 on the diagonal and the
      distance of the two strings everywhere else. */
  lemma StringsRoundTrip(data: seq<string>, maxDist: nat)
    requires maxDist <= IntMax && FromStrings(data, maxDist).Ok?
    ensures FromCsv(Dump(FromStrings(data, maxDist).value)).Ok?
    ensures var back := FromCsv(Dump(FromStrings(data, maxDist).value)).value;
      && back.nsamples == |data| && Covers(back) && SameLength(data)
      && forall i, j | 0 <= i < |data| && 0 <= j < |data| ::
           Matrix(back)[i][j] == (if i == j then 0 else Distance(data[i], data[j]))
  {
    var ds := FromStrings(data, maxDist).value;
    FromStringsInt32(data, maxDist);
    DumpRoundTrip(ds);
    var back := FromCsv(Dump(ds)).value;
    forall i, j | 0 <= i < |data| && 0 <= j < |data|
      ensures Matrix(back)[i][j] == (if i == j then 0 else Distance(data[i], data[j]))
    {
      assert Matrix(back)[i][j] == Matrix(ds)[i][j] == RowValues(ds, i)[j];
    }
  }
}
