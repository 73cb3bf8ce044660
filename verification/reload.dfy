/** Reading back what was written: the full matrix that `dump` writes and
    the lower-triangular layout both reload, through the file constructor,
    to the matrix they came from. */
module Reload {
  import opened Errors
  import opened Streams
  import opened Decimal
  import opened Triangle
  import opened DataSets
  import opened Csv

  /** Every stored value fits the `int` that `std::stoi` returns. */
  predicate Int32Entries(ds: DataSet) {
    forall p | 0 <= p < |ds.result| :: IsInt32(ds.result[p])
  }

  lemma ShowNoSeparator(v: int)
    ensures ',' !in Show(v) && '\n' !in Show(v)
  {
    var s := Show(v);
    forall k | 0 <= k < |s|
      ensures s[k] != ',' && s[k] != '\n'
    {
      assert IsDigit(s[k]) || s[k] == '-';
    }
  }

  /** Values joined by ", " form a single line. */
  lemma {:induction false} JoinedIsOneLine(vs: seq<int>)
    ensures '\n' !in Join(Shows(vs), ", ")
    decreases |vs|
  {
    if |vs| > 1 {
      ShowNoSeparator(vs[0]);
      assert Shows(vs)[1..] == Shows(vs[1..]);
      JoinedIsOneLine(vs[1..]);
    } else if |vs| == 1 {
      ShowNoSeparator(vs[0]);
    }
  }

  /** The texts the comma extraction yields from `pre + Join(ts, ", ")`:
      the first item after `pre`, every later one after the blank that
      follows its comma. */
  function Padded(pre: string, ts: seq<string>): (fs: seq<string>)
    ensures |fs| == |ts|
  {
    seq(|ts|, x requires 0 <= x < |ts| => if x == 0 then pre + ts[x] else " " + ts[x])
  }

  /** Items that are nonempty and free of commas. */
  predicate Plain(ts: seq<string>) {
    forall x | 0 <= x < |ts| :: ts[x] != [] && ',' !in ts[x]
  }

  lemma PaddedCons(pre: string, ts: seq<string>, k: nat)
    requires 1 < |ts| && 0 < k <= |ts|
    ensures Padded(pre, ts)[..k] == [pre + ts[0]] + Padded(" ", ts[1..])[..k - 1]
  {
    var a := Padded(pre, ts)[..k];
    var b := [pre + ts[0]] + Padded(" ", ts[1..])[..k - 1];
    assert |a| == |b|;
    forall x | 0 <= x < k
      ensures a[x] == b[x]
    {
      if x > 0 {
        assert b[x] == Padded(" ", ts[1..])[x - 1] == " " + ts[1..][x - 1];
      }
    }
  }

  lemma PlainTail(ts: seq<string>)
    requires |ts| > 0 && Plain(ts)
    ensures Plain(ts[1..])
  {
    assert forall x | 0 <= x < |ts| - 1 :: ts[1..][x] == ts[x + 1];
  }

  /** The first item, after `pre`, has no comma. */
  lemma FirstPlain(pre: string, ts: seq<string>)
    requires pre == [] || pre == " "
    requires |ts| > 0 && Plain(ts)
    ensures ',' !in pre + ts[0]
  {
    assert ',' !in ts[0];
    if pre == [] {
      assert pre + ts[0] == ts[0];
    } else {
      assert pre + ts[0] == " " + ts[0];
    }
  }

  /** Extraction from `pre + Join(ts, ", ")` with a single item takes it
      all and reaches the end of the line. */
  lemma LastField(pre: string, ts: seq<string>, d: string)
    requires pre == [] || pre == " "
    requires |ts| == 1 && Plain(ts)
    ensures GetLine(Stream(pre + Join(ts, ", "), false, false), d, ',') == (Stream([], true, false), pre + ts[0])
  {
    FirstPlain(pre, ts);
    assert pre + Join(ts, ", ") == pre + ts[0];
    GetLineLast(pre + ts[0], d, ',');
  }

  /** Items joined by ", " split at the first comma. */
  lemma JoinAtComma(pre: string, ts: seq<string>)
    requires |ts| > 1
    ensures pre + Join(ts, ", ") == (pre + ts[0]) + [','] + (" " + Join(ts[1..], ", "))
  {
    assert Join(ts, ", ") == ts[0] + ", " + Join(ts[1..], ", ");
  }

  /** Extraction from `pre + Join(ts, ", ")` with several items takes
      `pre + ts[0]` and leaves the text after the comma. */
  lemma NextField(pre: string, ts: seq<string>, d: string)
    requires pre == [] || pre == " "
    requires |ts| > 1 && Plain(ts)
    ensures GetLine(Stream(pre + Join(ts, ", "), false, false), d, ',') ==
      (Stream(" " + Join(ts[1..], ", "), false, false), pre + ts[0])
  {
    FirstPlain(pre, ts);
    var rest := " " + Join(ts[1..], ", ");
    JoinAtComma(pre, ts);
    GetLineField(pre + ts[0], rest, d, ',');
  }

  /** Extracting k comma-separated fields from items joined by ", " yields
      the first k padded items. */
  lemma {:induction false} FieldsOfJoin(pre: string, ts: seq<string>, d: string, k: nat)
    requires pre == [] || pre == " "
    requires k <= |ts| && Plain(ts)
    ensures Fields(Stream(pre + Join(ts, ", "), false, false), d, k) == Padded(pre, ts)[..k]
    decreases k
  {
    if k > 0 {
      if |ts| == 1 {
        FieldsOfLast(pre, ts, d);
      } else {
        var first := pre + ts[0];
        var tail := ts[1..];
        var s' := Stream(" " + Join(tail, ", "), false, false);
        assert Fields(s', first, k - 1) == Padded(" ", tail)[..k - 1] by {
          PlainTail(ts);
          FieldsOfJoin(" ", tail, first, k - 1);
        }
        FieldsOfNext(pre, ts, d, k);
        PaddedCons(pre, ts, k);
      }
    }
  }

  lemma FieldsOfLast(pre: string, ts: seq<string>, d: string)
    requires pre == [] || pre == " "
    requires |ts| == 1 && Plain(ts)
    ensures Fields(Stream(pre + Join(ts, ", "), false, false), d, 1) == Padded(pre, ts)[..1]
  {
    LastField(pre, ts, d);
    assert Padded(pre, ts)[..1] == [pre + ts[0]];
  }

  lemma FieldsOfNext(pre: string, ts: seq<string>, d: string, k: nat)
    requires pre == [] || pre == " "
    requires |ts| > 1 && 0 < k && Plain(ts)
    ensures Fields(Stream(pre + Join(ts, ", "), false, false), d, k) ==
      [pre + ts[0]] + Fields(Stream(" " + Join(ts[1..], ", "), false, false), pre + ts[0], k - 1)
  {
    NextField(pre, ts, d);
  }

  /** `std::stoi` reads each padded decimal text back as its value. */
  lemma {:induction false} ConvertPadded(pre: string, vs: seq<int>, k: nat)
    requires pre == [] || pre == " "
    requires k <= |vs| && forall x | 0 <= x < |vs| :: IsInt32(vs[x])
    ensures ConvertAll(Padded(pre, Shows(vs))[..k]) == Ok(vs[..k])
    decreases k
  {
    if k > 0 {
      var fs := Padded(pre, Shows(vs))[..k];
      assert Stoi(fs[0]) == Ok(vs[0]) by {
        StoiShow(pre, vs[0]);
      }
      var tail := vs[1..];
      assert fs[1..] == Padded(" ", Shows(tail))[..k - 1] by {
        PaddedShowsTail(pre, vs, k);
      }
      ConvertPadded(" ", tail, k - 1);
      SliceCons(vs, k);
    }
  }

  lemma PaddedShowsTail(pre: string, vs: seq<int>, k: nat)
    requires 0 < k <= |vs|
    ensures Padded(pre, Shows(vs))[..k][1..] == Padded(" ", Shows(vs[1..]))[..k - 1]
  {
    var a := Padded(pre, Shows(vs))[..k][1..];
    var b := Padded(" ", Shows(vs[1..]))[..k - 1];
    forall x | 0 <= x < k - 1
      ensures a[x] == b[x]
    {
      assert a[x] == " " + Show(vs[x + 1]);
    }
  }

  lemma SliceCons<T>(vs: seq<T>, k: nat)
    requires 0 < k <= |vs|
    ensures vs[..k] == [vs[0]] + vs[1..][..k - 1]
  {
  }

  /** Decimal texts are nonempty and free of commas. */
  lemma ShowsPlain(vs: seq<int>)
    ensures Plain(Shows(vs))
  {
    forall x | 0 <= x < |vs|
      ensures Show(vs[x]) != [] && ',' !in Show(vs[x])
    {
      ShowNoSeparator(vs[x]);
    }
  }

  /** The first k fields of values joined by ", " are the first k values:
      `std::getline` stops at each comma and `std::stoi` skips the blank
      after it. */
  lemma ReadJoined(vs: seq<int>, k: nat)
    requires k <= |vs| && forall x | 0 <= x < |vs| :: IsInt32(vs[x])
    ensures LineFields(Join(Shows(vs), ", "), k) == Ok(vs[..k])
  {
    var line := Join(Shows(vs), ", ");
    ReadFieldsSplit(Open(line), [], k);
    assert Open(line) == Stream([] + line, false, false);
    ShowsPlain(vs);
    FieldsOfJoin([], Shows(vs), [], k);
    ConvertPadded([], vs, k);
  }

  /** The full matrix, row by row, as `operator[]` reads it: a square,
      symmetric matrix with zeros on the diagonal. */
  function Matrix(ds: DataSet): (m: seq<seq<int>>)
    requires Covers(ds)
    ensures |m| == ds.nsamples
    ensures forall i | 0 <= i < ds.nsamples :: m[i] == RowValues(ds, i)
    ensures forall i | 0 <= i < |m| :: |m[i]| == |m| && m[i][i] == 0
    ensures forall i, j | 0 <= i < |m| && 0 <= j < |m| :: m[i][j] == m[j][i]
  {
    RowsSymmetric(ds);
    seq(ds.nsamples, i requires 0 <= i < ds.nsamples => RowValues(ds, i))
  }

  /** Row i, column j reads what row j, column i reads. */
  lemma RowsSymmetric(ds: DataSet)
    requires Covers(ds)
    ensures forall i, j | 0 <= i < ds.nsamples && 0 <= j < ds.nsamples ::
      RowValues(ds, i)[j] == RowValues(ds, j)[i]
  {
    CoveredInRange(ds);
    forall i, j | 0 <= i < ds.nsamples && 0 <= j < ds.nsamples
      ensures RowValues(ds, i)[j] == RowValues(ds, j)[i]
    {
      GetSymmetric(ds, i, j);
    }
  }

  /** Two stores read as the same matrix when they agree below the
      diagonal: the rest follows by symmetry. */
  lemma SameBelowDiagonal(a: DataSet, b: DataSet)
    requires Covers(a) && Covers(b) && a.nsamples == b.nsamples
    requires forall i: nat, j: nat | j < i < a.nsamples :: InRange(a, i, j) && InRange(b, i, j) && Get(a, i, j) == Get(b, i, j)
    ensures Matrix(a) == Matrix(b)
  {
    forall i | 0 <= i < a.nsamples
      ensures RowValues(a, i) == RowValues(b, i)
    {
      forall j | 0 <= j < a.nsamples
        ensures RowValues(a, i)[j] == RowValues(b, i)[j]
      {
        SameEntry(a, b, i, j);
      }
    }
  }

  lemma SameEntry(a: DataSet, b: DataSet, i: nat, j: nat)
    requires Covers(a) && Covers(b) && a.nsamples == b.nsamples && i < a.nsamples && j < a.nsamples
    requires forall i: nat, j: nat | j < i < a.nsamples :: InRange(a, i, j) && InRange(b, i, j) && Get(a, i, j) == Get(b, i, j)
    ensures RowValues(a, i)[j] == RowValues(b, i)[j]
  {
    if i < j {
      assert Get(a, j, i) == Get(b, j, i);
      GetSymmetric(a, j, i);
      GetSymmetric(b, j, i);
    }
  }

  /** A newline-terminated text whose line i yields, under `parse`, the
      first i entries of row i reloads to the same matrix. */
  lemma LoadRows(ds: DataSet, lines: seq<string>, parse: (string, nat) -> Result<seq<int>>)
    requires forall line, k :: parse(line, k).Ok? ==> |parse(line, k).value| == k
    requires Covers(ds) && |lines| == ds.nsamples
    requires forall i | 0 <= i < |lines| :: '\n' !in lines[i]
    requires forall i | 0 <= i < |lines| :: parse(lines[i], i) == Ok(RowValues(ds, i)[..i])
    ensures Load(Terminated(lines), parse).Ok?
    ensures var back := Load(Terminated(lines), parse).value;
      back.nsamples == ds.nsamples && Covers(back) && Matrix(back) == Matrix(ds)
  {
    var text := Terminated(lines);
    SplitTerminated(lines);
    LinesAndNewlines(text);
    assert SplitLines(text) == lines;
    assert forall k | 0 <= k < |lines| :: parse(lines[k], k).Ok?;
    var r := Load(text, parse);
    assert r.Ok?;
    LoadAgrees(ds, lines, parse, r.value);
  }

  lemma LoadAgrees(ds: DataSet, lines: seq<string>, parse: (string, nat) -> Result<seq<int>>, back: DataSet)
    requires forall line, k :: parse(line, k).Ok? ==> |parse(line, k).value| == k
    requires Covers(ds) && |lines| == ds.nsamples
    requires forall i | 0 <= i < |lines| :: parse(lines[i], i) == Ok(RowValues(ds, i)[..i])
    requires back.nsamples == ds.nsamples && Covers(back)
    requires forall i: nat, j: nat | j < i < back.nsamples ::
      && i < |lines| && parse(lines[i], i).Ok?
      && InRange(back, i, j) && Get(back, i, j) == parse(lines[i], i).value[j]
    ensures Matrix(back) == Matrix(ds)
  {
    forall i: nat, j: nat | j < i < ds.nsamples
      ensures InRange(back, i, j) && InRange(ds, i, j) && Get(back, i, j) == Get(ds, i, j)
    {
      assert RowValues(ds, i)[..i][j] == RowValues(ds, i)[j];
    }
    SameBelowDiagonal(back, ds);
  }

  /** The same through the file constructor. */
  lemma ReloadRows(ds: DataSet, lines: seq<string>)
    requires Covers(ds) && |lines| == ds.nsamples
    requires forall i | 0 <= i < |lines| :: '\n' !in lines[i]
    requires forall i | 0 <= i < |lines| :: LineFields(lines[i], i) == Ok(RowValues(ds, i)[..i])
    ensures FromCsv(Terminated(lines)).Ok?
    ensures var back := FromCsv(Terminated(lines)).value;
      back.nsamples == ds.nsamples && Covers(back) && Matrix(back) == Matrix(ds)
  {
    LoadRows(ds, lines, LineFields);
  }

  /** Loading the text `dump` writes gives back the matrix. */
  lemma DumpRoundTrip(ds: DataSet)
    requires Covers(ds) && Int32Entries(ds)
    ensures FromCsv(Dump(ds)).Ok?
    ensures var back := FromCsv(Dump(ds)).value;
      back.nsamples == ds.nsamples && Covers(back) && Matrix(back) == Matrix(ds)
  {
    DumpLines(ds);
    var lines := MatrixLines(ds);
    forall i | 0 <= i < |lines|
      ensures '\n' !in lines[i] && LineFields(lines[i], i) == Ok(RowValues(ds, i)[..i])
    {
      var row := RowValues(ds, i);
      RowInt32(ds, i);
      JoinedIsOneLine(row);
      ReadJoined(row, i);
    }
    ReloadRows(ds, lines);
  }

  /** Loading the lower-triangular layout gives back the matrix. */
  lemma LowerTriangularRoundTrip(ds: DataSet)
    requires Covers(ds) && Int32Entries(ds)
    ensures FromCsv(DumpLowerTriangular(ds)).Ok?
    ensures var back := FromCsv(DumpLowerTriangular(ds)).value;
      back.nsamples == ds.nsamples && Covers(back) && Matrix(back) == Matrix(ds)
  {
    var lines := LowerLines(ds);
    forall i | 0 <= i < |lines|
      ensures '\n' !in lines[i] && LineFields(lines[i], i) == Ok(RowValues(ds, i)[..i])
    {
      LowerLine(ds, i);
    }
    ReloadRows(ds, lines);
  }

  lemma LowerLine(ds: DataSet, i: nat)
    requires Covers(ds) && Int32Entries(ds) && i < ds.nsamples
    ensures '\n' !in LowerLines(ds)[i]
    ensures LineFields(LowerLines(ds)[i], i) == Ok(RowValues(ds, i)[..i])
  {
    var row := RowValues(ds, i)[..i];
    RowInt32(ds, i);
    JoinedIsOneLine(row);
    ReadJoined(row, i);
    assert row[..i] == row;
  }

  lemma RowInt32(ds: DataSet, i: nat)
    requires Covers(ds) && Int32Entries(ds) && i < ds.nsamples
    ensures forall x | 0 <= x < |RowValues(ds, i)| :: IsInt32(RowValues(ds, i)[x])
  {
    var row := RowValues(ds, i);
    forall x | 0 <= x < |row|
      ensures IsInt32(row[x])
    {
      if x != i {
        IndexInBounds(Min(i, x), Max(i, x), ds.nsamples);
        assert row[x] == ds.result[Index(Min(i, x), Max(i, x))];
      }
    }
  }
}
