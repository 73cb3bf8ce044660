/** The matrix as text: `DataSet::dump`, which writes the full square
    matrix, the lower-triangular layout, and the constructor that reloads
    a matrix file keeping the first k fields of line k. */
module Csv {
  import opened Errors
  import opened Streams
  import opened Decimal
  import opened Triangle
  import opened DataSets

  /** `items` separated by `sep`, with no separator after the last one. */
  function Join(items: seq<string>, sep: string): string
    decreases |items|
  {
    if |items| == 0 then []
    else if |items| == 1 then items[0]
    else items[0] + sep + Join(items[1..], sep)
  }

  /** The decimal texts of `vs`. */
  function Shows(vs: seq<int>): (ts: seq<string>)
    ensures |ts| == |vs| && forall k | 0 <= k < |vs| :: ts[k] == Show(vs[k])
  {
    seq(|vs|, k requires 0 <= k < |vs| => Show(vs[k]))
  }

  /** Row `i` of the full matrix as `operator[]` reads it. */
  function RowValues(ds: DataSet, i: nat): (row: seq<int>)
    requires Covers(ds) && i < ds.nsamples
    ensures |row| == ds.nsamples
    ensures forall j | 0 <= j < ds.nsamples :: InRange(ds, i, j) && row[j] == Get(ds, i, j)
    ensures row[i] == 0
  {
    CoveredInRange(ds);
    seq(ds.nsamples, j requires 0 <= j < ds.nsamples => Get(ds, i, j))
  }

  /** The inner loop of `dump`: entries j.. of row i, each followed by ", "
      unless it is the last column. */
  function RowText(ds: DataSet, i: nat, j: nat): string
    requires Covers(ds) && i < ds.nsamples && j <= ds.nsamples
    decreases ds.nsamples - j
  {
    CoveredInRange(ds);
    if j == ds.nsamples then []
    else Show(Get(ds, i, j)) + (if j != ds.nsamples - 1 then ", " else "") + RowText(ds, i, j + 1)
  }

  /** The outer loop of `dump`: rows i.., each followed by a newline. */
  function DumpFrom(ds: DataSet, i: nat): string
    requires Covers(ds) && i <= ds.nsamples
    decreases ds.nsamples - i
  {
    if i == ds.nsamples then [] else RowText(ds, i, 0) + "\n" + DumpFrom(ds, i + 1)
  }

  /** The text `DataSet::dump` writes. */
  function Dump(ds: DataSet): string
    requires Covers(ds)
  {
    DumpFrom(ds, 0)
  }

  /** The lines of the full matrix: row i's entries separated by ", ". */
  function MatrixLines(ds: DataSet): (lines: seq<string>)
    requires Covers(ds)
    ensures |lines| == ds.nsamples
  {
    seq(ds.nsamples, i requires 0 <= i < ds.nsamples => Join(Shows(RowValues(ds, i)), ", "))
  }

  /** The lines of the lower-triangular layout: line i holds the i entries
      left of the diagonal, separated by ", ", so line 0 is empty. */
  function LowerLines(ds: DataSet): (lines: seq<string>)
    requires Covers(ds)
    ensures |lines| == ds.nsamples
  {
    seq(ds.nsamples, i requires 0 <= i < ds.nsamples => Join(Shows(RowValues(ds, i)[..i]), ", "))
  }

  /** The text of the lower-triangular layout, every line newline-terminated. */
  function DumpLowerTriangular(ds: DataSet): string
    requires Covers(ds)
  {
    Terminated(LowerLines(ds))
  }

  lemma {:induction false} RowTextJoins(ds: DataSet, i: nat, j: nat)
    requires Covers(ds) && i < ds.nsamples && j <= ds.nsamples
    ensures RowText(ds, i, j) == Join(Shows(RowValues(ds, i)[j..]), ", ")
    decreases ds.nsamples - j
  {
    if j < ds.nsamples {
      var row := RowValues(ds, i);
      assert Join(Shows(row[j..]), ", ") ==
        Show(row[j]) + (if j != ds.nsamples - 1 then ", " else "") + Join(Shows(row[j + 1..]), ", ")
      by {
        JoinShowsCons(row[j..]);
        assert row[j..][1..] == row[j + 1..];
      }
      assert RowText(ds, i, j + 1) == Join(Shows(row[j + 1..]), ", ") by {
        RowTextJoins(ds, i, j + 1);
      }
      RowTextStep(ds, i, j);
    }
  }

  /** One step of the inner loop of `dump`. */
  lemma RowTextStep(ds: DataSet, i: nat, j: nat)
    requires Covers(ds) && i < ds.nsamples && j < ds.nsamples
    ensures RowText(ds, i, j) ==
      Show(RowValues(ds, i)[j]) + (if j != ds.nsamples - 1 then ", " else "") + RowText(ds, i, j + 1)
  {
  }

  /** The first text of a join, then the separator and the rest if any. */
  lemma JoinShowsCons(vs: seq<int>)
    requires |vs| > 0
    ensures Join(Shows(vs), ", ") ==
      Show(vs[0]) + (if |vs| > 1 then ", " else "") + Join(Shows(vs[1..]), ", ")
  {
    assert Shows(vs)[1..] == Shows(vs[1..]);
  }

  lemma {:induction false} DumpFromTerminates(ds: DataSet, i: nat)
    requires Covers(ds) && i <= ds.nsamples
    ensures DumpFrom(ds, i) == Terminated(MatrixLines(ds)[i..])
    decreases ds.nsamples - i
  {
    if i < ds.nsamples {
      var lines := MatrixLines(ds);
      RowTextJoins(ds, i, 0);
      assert RowValues(ds, i)[0..] == RowValues(ds, i);
      assert lines[i..][0] == lines[i] == RowText(ds, i, 0);
      assert lines[i..][1..] == lines[i + 1..];
      DumpFromTerminates(ds, i + 1);
    }
  }

  /** `dump` writes the matrix lines, each followed by a newline. */
  lemma DumpLines(ds: DataSet)
    requires Covers(ds)
    ensures Dump(ds) == Terminated(MatrixLines(ds))
  {
    DumpFromTerminates(ds, 0);
    assert MatrixLines(ds)[0..] == MatrixLines(ds);
  }

  /** Reads `k` comma-separated fields with `std::getline(s, d, ',')` and
      converts each with `std::stoi`. A field missing after the last one
      leaves `d` as it was, so that field is read again; an empty line
      yields an empty field, which `std::stoi` rejects. */
  function ReadFields(s: Stream, d: string, k: nat): (r: Result<seq<int>>)
    ensures r.Ok? ==> |r.value| == k
    ensures r.Err? ==> r.error == MalformedNumber
    decreases k
  {
    if k == 0 then Ok([])
    else
      var (s', d') := GetLine(s, d, ',');
      var v :- Stoi(d');
      var vs :- ReadFields(s', d', k - 1);
      Ok([v] + vs)
  }

  /** The field texts the loop extracts, leaving conversion aside. */
  function Fields(s: Stream, d: string, k: nat): (fs: seq<string>)
    ensures |fs| == k
    decreases k
  {
    if k == 0 then []
    else
      var (s', d') := GetLine(s, d, ',');
      [d'] + Fields(s', d', k - 1)
  }

  /** The texts converted in order; the first that is not a number ends
      the conversion. */
  function ConvertAll(fs: seq<string>): (r: Result<seq<int>>)
    ensures r.Ok? ==> |r.value| == |fs|
    ensures r.Err? ==> r.error == MalformedNumber
    decreases |fs|
  {
    if |fs| == 0 then Ok([])
    else
      var v :- Stoi(fs[0]);
      var vs :- ConvertAll(fs[1..]);
      Ok([v] + vs)
  }

  /** Extraction never looks at what conversion produced, and a failed
      conversion ends the loop, so reading the fields amounts to
      extracting them all and converting them in order. */
  lemma {:induction false} ReadFieldsSplit(s: Stream, d: string, k: nat)
    ensures ReadFields(s, d, k) == ConvertAll(Fields(s, d, k))
    decreases k
  {
    if k > 0 {
      var (s', d') := GetLine(s, d, ',');
      ReadFieldsSplit(s', d', k - 1);
      assert ([d'] + Fields(s', d', k - 1))[1..] == Fields(s', d', k - 1);
    }
  }

  /** `result[i..i + |vals|)` overwritten with `vals`, as `result[i++] = v`
      does one value at a time. */
  function Store(result: seq<int>, at: nat, vals: seq<int>): (r: seq<int>)
    requires at + |vals| <= |result|
    ensures |r| == |result|
    ensures forall p | 0 <= p < |r| :: r[p] == if at <= p < at + |vals| then vals[p - at] else result[p]
  {
    result[..at] + vals + result[at + |vals|..]
  }

  /** The fields `DataSet(filename)` takes from line number `k`: its first
      k fields. */
  function LineFields(line: string, k: nat): (r: Result<seq<int>>)
    ensures r.Ok? ==> |r.value| == k
    ensures r.Err? ==> r.error == MalformedNumber
  {
    ReadFields(Open(line), [], k)
  }

  /** The reading loop over lines `current`.., each read by `parse`. */
  function ParseRows(lines: seq<string>, current: nat, parse: (string, nat) -> Result<seq<int>>): (r: Result<seq<seq<int>>>)
    ensures r.Ok? <==> forall k | 0 <= k < |lines| :: parse(lines[k], current + k).Ok?
    ensures r.Err? ==> exists k | 0 <= k < |lines| :: parse(lines[k], current + k) == Err(r.error)
    ensures r.Ok? ==> |r.value| == |lines|
    ensures r.Ok? ==> forall k | 0 <= k < |lines| :: r.value[k] == parse(lines[k], current + k).value
    decreases |lines|
  {
    if |lines| == 0 then Ok([])
    else
      assert forall k | 1 <= k < |lines| :: lines[1..][k - 1] == lines[k];
      var row :- parse(lines[0], current);
      var rows :- ParseRows(lines[1..], current + 1, parse);
      Ok([row] + rows)
  }

  /** Row k of `rows` holds k values, counting rows from `current`. */
  predicate Triangular(rows: seq<seq<int>>, current: nat) {
    forall k | 0 <= k < |rows| :: |rows[k]| == current + k
  }

  /** The rows one after the other. */
  function Flatten(rows: seq<seq<int>>): seq<int> {
    if |rows| == 0 then [] else rows[0] + Flatten(rows[1..])
  }

  /** Triangular rows laid end to end fill the slots [Tri(current),
      Tri(current + |rows|)). */
  lemma {:induction false} FlattenLength(rows: seq<seq<int>>, current: nat)
    requires Triangular(rows, current)
    ensures Tri(current) + |Flatten(rows)| == Tri(current + |rows|)
    decreases |rows|
  {
    if |rows| > 0 {
      TailTriangular(rows, current);
      FlattenLength(rows[1..], current + 1);
    }
  }

  lemma TailTriangular(rows: seq<seq<int>>, current: nat)
    requires Triangular(rows, current) && |rows| > 0
    ensures Triangular(rows[1..], current + 1)
  {
    assert forall k | 0 <= k < |rows| - 1 :: rows[1..][k] == rows[k + 1];
  }

  /** Entry j of row k sits at slot Tri(current + k) + j. */
  lemma {:induction false} FlattenEntry(rows: seq<seq<int>>, current: nat, k: nat, j: nat)
    requires Triangular(rows, current) && k < |rows| && j < |rows[k]|
    ensures Tri(current) <= Tri(current + k) + j < Tri(current) + |Flatten(rows)|
    ensures Flatten(rows)[Tri(current + k) + j - Tri(current)] == rows[k][j]
    decreases k
  {
    FlattenLength(rows, current);
    var flat := Flatten(rows);
    assert flat == rows[0] + Flatten(rows[1..]);
    if k > 0 {
      TailTriangular(rows, current);
      assert rows[1..][k - 1] == rows[k];
      FlattenEntry(rows[1..], current + 1, k - 1, j);
      assert current + 1 + (k - 1) == current + k;
    }
  }

  /** The writes of the reading loop, `result[i++] = v`, row after row
      from slot Tri(current); every write lands inside `result`. */
  function StoreRows(rows: seq<seq<int>>, current: nat, result: seq<int>): (r: seq<int>)
    requires Triangular(rows, current) && Tri(current + |rows|) <= |result|
    ensures |r| == |result|
    decreases |rows|
  {
    if |rows| == 0 then result
    else
      RowFits(rows, current);
      StoreRows(rows[1..], current + 1, Store(result, Tri(current), rows[0]))
  }

  /** The first row ends where the next begins, and the rest are
      triangular from there. */
  lemma RowFits(rows: seq<seq<int>>, current: nat)
    requires Triangular(rows, current) && |rows| > 0
    ensures Tri(current) + |rows[0]| == Tri(current + 1) <= Tri(current + |rows|)
    ensures Triangular(rows[1..], current + 1) && current + 1 + |rows[1..]| == current + |rows|
  {
    TriMonotone(current + 1, current + |rows|);
    TailTriangular(rows, current);
  }

  /** The rows land one after the other from slot Tri(current), and
      nothing outside [Tri(current), Tri(current + |rows|)) changes. */
  lemma {:induction false} StoreRowsLayout(rows: seq<seq<int>>, current: nat, result: seq<int>)
    requires Triangular(rows, current) && Tri(current + |rows|) <= |result|
    ensures Tri(current) + |Flatten(rows)| == Tri(current + |rows|)
    ensures StoreRows(rows, current, result) == result[..Tri(current)] + Flatten(rows) + result[Tri(current + |rows|)..]
    decreases |rows|
  {
    FlattenLength(rows, current);
    if |rows| > 0 {
      RowFits(rows, current);
      var stored := Store(result, Tri(current), rows[0]);
      StoreRowsLayout(rows[1..], current + 1, stored);
      StoreThenRest(result, Tri(current), rows[0], Flatten(rows[1..]), Tri(current + |rows|), stored, StoreRows(rows, current, result));
    }
  }

  /** Writing a row and then the rows after it writes their concatenation. */
  lemma StoreThenRest(result: seq<int>, at: nat, row: seq<int>, more: seq<int>, hi: nat, stored: seq<int>, r: seq<int>)
    requires at + |row| <= hi <= |result|
    requires stored == result[..at] + row + result[at + |row|..]
    requires r == stored[..at + |row|] + more + stored[hi..]
    ensures r == result[..at] + (row + more) + result[hi..]
  {
    assert stored[..at + |row|] == result[..at] + row;
    assert stored[hi..] == result[hi..];
  }

  /** `DataSet(filename)` with each line read by `parse`: as many samples
      as the text has newlines, a store of Tri(nsamples + 1) =
      nsamples*(nsamples+1)/2 zeros, and line i of the text supplying the
      row of entries left of the diagonal in row i. */
  function Load(text: string, parse: (string, nat) -> Result<seq<int>>): (r: Result<DataSet>)
    requires forall line, k :: parse(line, k).Ok? ==> |parse(line, k).value| == k
    ensures r.Err? ==> exists k | 0 <= k < |SplitLines(text)| :: parse(SplitLines(text)[k], k) == Err(r.error)
    ensures r.Ok? <==> forall k | 0 <= k < |SplitLines(text)| :: parse(SplitLines(text)[k], k).Ok?
    ensures r.Ok? ==> r.value.nsamples == CountNewlines(text)
    ensures r.Ok? ==> |r.value.result| == Tri(r.value.nsamples + 1) && Covers(r.value)
    ensures r.Ok? ==> forall i: nat, j: nat | j < i < r.value.nsamples ::
      && i < |SplitLines(text)| && parse(SplitLines(text)[i], i).Ok?
      && InRange(r.value, i, j) && Get(r.value, i, j) == parse(SplitLines(text)[i], i).value[j]
  {
    var n := CountNewlines(text);
    var lines := ReadLines(Open(text));
    ReadLinesSplits(Open(text));
    LinesAndNewlines(text);
    TriMonotone(|lines|, n + 1);
    TriMonotone(n, n + 1);
    var rows :- ParseRows(lines, 0, parse);
    var values := StoreRows(rows, 0, Zeros(Tri(n + 1)));
    StoredEntries(rows, n);
    Ok(DataSet(n, values))
  }

  /** `DataSet(filename)` on a text in the comma-separated layout: `Load`
      with every line read by `LineFields`; the only error is a field that
      is not a number. */
  function FromCsv(text: string): (r: Result<DataSet>)
    ensures r.Err? ==> r.error == MalformedNumber
  {
    Load(text, LineFields)
  }

  /** The store as `resize` leaves it: `len` zeros. */
  function Zeros(len: nat): (z: seq<int>)
    ensures |z| == len && forall p | 0 <= p < len :: z[p] == 0
  {
    seq(len, _ => 0)
  }

  /** After loading, row i of the parsed lines supplies the entries left of
      the diagonal. */
  lemma StoredEntries(rows: seq<seq<int>>, n: nat)
    requires Triangular(rows, 0) && n <= |rows| && Tri(|rows|) <= Tri(n + 1)
    ensures var ds := DataSet(n, StoreRows(rows, 0, Zeros(Tri(n + 1))));
      && |ds.result| == Tri(n + 1) && Covers(ds)
      && forall i: nat, j: nat | j < i < n :: InRange(ds, i, j) && Get(ds, i, j) == rows[i][j]
  {
    var zeros := Zeros(Tri(n + 1));
    var ds := DataSet(n, StoreRows(rows, 0, zeros));
    StoreRowsLayout(rows, 0, zeros);
    assert ds.result[..Tri(|rows|)] == Flatten(rows);
    CsvEntries(rows, ds);
  }

  lemma CsvEntries(rows: seq<seq<int>>, ds: DataSet)
    requires |rows| >= ds.nsamples && Triangular(rows, 0)
    requires Tri(|rows|) <= |ds.result| && ds.result[..Tri(|rows|)] == Flatten(rows)
    ensures Covers(ds)
    ensures forall i: nat, j: nat | j < i < ds.nsamples :: InRange(ds, i, j) && Get(ds, i, j) == rows[i][j]
  {
    TriMonotone(ds.nsamples, |rows|);
    forall i: nat, j: nat | j < i < ds.nsamples
      ensures InRange(ds, i, j) && Get(ds, i, j) == rows[i][j]
    {
      CsvEntry(rows, ds, i, j);
    }
  }

  lemma CsvEntry(rows: seq<seq<int>>, ds: DataSet, i: nat, j: nat)
    requires j < i < |rows| && Triangular(rows, 0)
    requires Tri(|rows|) <= |ds.result| && ds.result[..Tri(|rows|)] == Flatten(rows)
    ensures InRange(ds, i, j) && Get(ds, i, j) == rows[i][j]
  {
    FlattenLength(rows, 0);
    assert |rows[i]| == i;
    FlattenEntry(rows, 0, i, j);
    assert 0 + i == i;
    assert Index(j, i) == Tri(i) + j;
  }
}
