/** `from_fasta` on a file rather than on its text: a file that cannot be
    opened gives a stream with the failure flag set and the end-of-file
    flag clear. The outer loop as written tests only the end-of-file flag,
    so on such a stream it never stops early; the loop of module `Fasta`
    tests both flags. */
module FastaFiles {
  import opened Errors
  import opened Streams
  import opened DataSets
  import opened Fasta

  /** A file as `std::ifstream` finds it: its text, or not there. */
  datatype File = Present(text: string) | Missing

  /** `std::ifstream(filename)`: a stream over the text, or, when the file
      cannot be opened, a stream whose failure flag alone is set. */
  function OpenFile(f: File): (s: Stream)
    ensures f.Present? ==> s == Open(f.text)
    ensures f.Missing? ==> s.fail && !s.eof && s.rest == []
  {
    match f
    case Present(text) => Open(text)
    case Missing => Stream([], false, true)
  }

  /** The largest `std::size_t`, which `n == 0` is replaced by. */
  const SizeMax: nat := 0xFFFF_FFFF_FFFF_FFFF

  /** The outer loop as written: while `count < limit` and the end-of-file
      flag is clear, open a record and fill it. */
  function ReadRecordsAsWritten(s: Stream, count: nat, limit: nat): (records: seq<string>)
    ensures count <= limit ==> |records| <= limit - count
    decreases limit - count
  {
    if count < limit && !s.eof then
      var (s', record) := ReadRecord(s, []);
      [record] + ReadRecordsAsWritten(s', count + 1, limit)
    else []
  }

  /** The records `from_fasta` as written reads from a file. */
  function FromFastaFileAsWritten(f: File, n: nat): seq<string> {
    var (s, _) := GetLine(OpenFile(f), [], '\n');
    ReadRecordsAsWritten(s, 0, if n == 0 then SizeMax else n)
  }

  /** The records read from a file with the loop of module `Fasta`. */
  function FromFastaFile(f: File, n: nat): seq<string> {
    var (s, _) := GetLine(OpenFile(f), [], '\n');
    ReadRecords(s, 0, n)
  }

  /** On a stream that failed before reaching the end, the inner loop reads
      nothing and leaves the stream as it was. */
  lemma StuckRead(s: Stream)
    requires s.fail && !s.eof
    ensures ReadRecord(s, []) == (s, [])
  {
    assert GetLine(s, [], '\n') == (s, []);
  }

  /** On such a stream every remaining round of the loop as written adds an
      empty record. */
  lemma {:induction false} StuckLoop(s: Stream, count: nat, limit: nat)
    requires s.fail && !s.eof && count <= limit
    ensures ReadRecordsAsWritten(s, count, limit) == seq(limit - count, _ => "")
    decreases limit - count
  {
    if count < limit {
      StuckRead(s);
      StuckLoop(s, count + 1, limit);
      assert [""] + seq(limit - count - 1, _ => "") == seq(limit - count, _ => "");
    }
  }

  /** As written, a file that cannot be opened reads as `n` empty records;
      with `n > 0` building the matrix then fails with the empty-sequence
      error. When `n` is 0 the limit is SizeMax: the model, which ignores
      vector capacity, yields that many empty records, where the library
      keeps adding them until `emplace_back` throws. */
  lemma MissingFileAsWritten(n: nat, maxDist: nat)
    ensures FromFastaFileAsWritten(Missing, n) == seq(if n == 0 then SizeMax else n, _ => "")
    ensures n > 0 ==> FromStrings(FromFastaFileAsWritten(Missing, n), maxDist) == Err(EmptySequence)
  {
    var s := OpenFile(Missing);
    assert GetLine(s, [], '\n') == (s, []);
    StuckLoop(s, 0, if n == 0 then SizeMax else n);
  }

  /** With the corrected loop a file that cannot be opened reads as no
      records, whatever the limit, and building the matrix fails at once
      with the empty-sequence error. */
  lemma MissingFileRecords(n: nat, maxDist: nat)
    ensures FromFastaFile(Missing, n) == []
    ensures FromStrings(FromFastaFile(Missing, n), maxDist) == Err(EmptySequence)
  {
    var s := OpenFile(Missing);
    assert GetLine(s, [], '\n') == (s, []);
  }

  /** A file that opens reads as the reference records of its text. */
  lemma PresentFileRecords(text: string, n: nat)
    ensures FromFastaFile(Present(text), n) == Limit(FastaRecords(text), n)
  {
    FromFastaRecords(text, n);
  }

  /** On a stream opened over a file, where failure only comes with the
      end of input, the loop as written and the corrected loop with the
      same positive limit take the same rounds. */
  lemma {:induction false} AsWrittenOnOpenFile(s: Stream, count: nat, limit: nat)
    requires s.Sane() && limit > 0
    ensures ReadRecordsAsWritten(s, count, limit) == ReadRecords(s, count, limit)
    decreases limit - count
  {
    if count < limit && !s.eof {
      var (s', record) := ReadRecord(s, []);
      AsWrittenOnOpenFile(s', count + 1, limit);
    }
  }

  /** A text has no more lines than characters. */
  lemma {:induction false} LinesBound(text: string)
    ensures |SplitLines(text)| <= |text|
    decreases |text|
  {
    if |text| > 0 {
      var p := Find(text, '\n');
      if p < |text| {
        LinesBound(text[p + 1..]);
      }
    }
  }

  /** Reading lines with a record open gives at most one record more than
      there are lines. */
  lemma {:induction false} GroupsBound(lines: seq<string>)
    ensures |Groups(lines)| <= |lines| + 1
    decreases |lines|
  {
    if |lines| > 0 {
      GroupsBound(lines[1..]);
    }
  }

  /** A text has no more records than characters. */
  lemma RecordsBound(text: string)
    ensures |FastaRecords(text)| <= |text|
  {
    var lines := SplitLines(text);
    LinesBound(text);
    if |lines| > 0 {
      GroupsBound(lines[1..]);
    }
  }

  /** On every file that opens and that a `std::size_t` can measure, the
      loop as written and the corrected loop read the same records. */
  lemma AsWrittenAgrees(text: string, n: nat)
    requires |text| <= SizeMax
    ensures FromFastaFileAsWritten(Present(text), n) == FromFastaFile(Present(text), n)
  {
    var (s, _) := GetLine(Open(text), [], '\n');
    var limit := if n == 0 then SizeMax else n;
    FirstLineSkipped(text);
    AsWrittenOnOpenFile(s, 0, limit);
    ReadRecordsSplits(s, 0, limit);
    RecordsBound(text);
    PresentFileRecords(text, n);
  }
}
