/** The FASTA reader: the first line is skipped, and every later line that
    starts with '>' closes the record being read and opens the next one;
    the other lines of a record are concatenated. */
module Fasta {
  import opened Errors
  import opened Streams
  import opened Kernel
  import opened DataSets

  /** Whether a line is a header. An empty line is not: its first
      character, read through `line[0]`, is the terminating '\0'. */
  predicate IsHeader(line: string) {
    |line| > 0 && line[0] == '>'
  }

  /** The inner loop: lines are appended to `record` until extraction fails
      or a header is read; the header itself is consumed. */
  function ReadRecord(s: Stream, record: string): (r: (Stream, string))
    ensures s.Sane() ==> r.0.Sane()
    ensures |r.0.rest| <= |s.rest|
    ensures s.Good() ==> r.0.eof || |r.0.rest| < |s.rest|
    decreases |s.rest|
  {
    var (s', line) := GetLine(s, [], '\n');
    if s'.fail || IsHeader(line) then (s', record) else ReadRecord(s', record + line)
  }

  /** The outer loop: while fewer than `n` records were read (any number
      when `n` is 0) and the stream is good, open a record and fill it.
      The library tests only the end-of-file flag here; on every stream
      opened over a file the two tests agree, and on a file that cannot be
      opened only this one stops (see module `FastaFiles`). */
  function ReadRecords(s: Stream, count: nat, n: nat): (records: seq<string>)
    decreases |s.rest|, if s.eof then 0 else 1
  {
    if (n == 0 || count < n) && s.Good() then
      var (s', record) := ReadRecord(s, []);
      [record] + ReadRecords(s', count + 1, n)
    else []
  }

  /** The records `from_fasta` reads from the text of a file, before the
      matrix is built: at most `n` of them unless `n` is 0. */
  function FromFastaText(text: string, n: nat): (records: seq<string>)
  {
    var (s, _) := GetLine(Open(text), [], '\n');
    ReadRecords(s, 0, n)
  }

  // Reference definition over the lines of the text.

  /** Records of `lines` read with a record already open: each header
      closes the open record and opens an empty one, every other line is
      appended to the open record. */
  function Groups(lines: seq<string>): (gs: seq<string>)
    ensures |gs| > 0
    ensures LastIsHeader(lines) ==> |gs| > 1 && gs[|gs| - 1] == []
    decreases |lines|
  {
    if |lines| == 0 then [[]]
    else
      var rest := Groups(lines[1..]);
      if IsHeader(lines[0]) then [[]] + rest else [lines[0] + rest[0]] + rest[1..]
  }

  /** The groups of `lines`, without the record a header opens when it is
      the end of the input: there the end-of-file flag stops the outer loop
      before that record is added. */
  function OpenRecords(lines: seq<string>, endsOnHeader: bool): seq<string>
  {
    var gs := Groups(lines);
    if endsOnHeader then gs[..|gs| - 1] else gs
  }

  /** The last of `lines` is a header. */
  predicate LastIsHeader(lines: seq<string>) {
    |lines| > 0 && IsHeader(lines[|lines| - 1])
  }

  /** The text ends, with no newline after it, on a header line. */
  predicate EndsOnHeader(text: string) {
    Unterminated(text) && LastIsHeader(SplitLines(text))
  }

  /** The records of a text read with a record already open. */
  function RecordsOf(text: string): seq<string> {
    OpenRecords(SplitLines(text), EndsOnHeader(text))
  }

  /** The records of a FASTA text: the first line, whatever it holds, acts
      as the header of the first record. */
  function FastaRecords(text: string): seq<string> {
    var lines := SplitLines(text);
    if |lines| == 0 then []
    else OpenRecords(lines[1..], Unterminated(text) && (|lines| == 1 || IsHeader(lines[|lines| - 1])))
  }

  /** The first `m` records, or all of them when there are fewer. */
  function Take(records: seq<string>, m: nat): (r: seq<string>)
    ensures |r| <= m && r <= records
    ensures |records| <= m ==> r == records
    ensures m < |records| ==> r == records[..m]
  {
    if |records| <= m then records else records[..m]
  }

  /** The record limit of `from_fasta`: 0 means no limit. */
  function Limit(records: seq<string>, n: nat): seq<string> {
    if n == 0 then records else Take(records, n)
  }

  /** The records still to be read from a stream positioned at the start of
      a record. */
  function Pending(s: Stream): seq<string> {
    if s.eof then [] else RecordsOf(s.rest)
  }

  // Correspondence of the stream loops with the reference definition.

  lemma DropLastCons(x: string, gs: seq<string>)
    requires |gs| > 0
    ensures ([x] + gs)[..|gs|] == [x] + gs[..|gs| - 1]
  {
  }

  /** A header in front of lines closes an empty record. */
  lemma OpenRecordsHeader(line: string, tail: seq<string>, endsOnHeader: bool)
    requires IsHeader(line)
    requires endsOnHeader ==> LastIsHeader(tail)
    ensures OpenRecords([line] + tail, endsOnHeader) == [[]] + OpenRecords(tail, endsOnHeader)
  {
    var lines := [line] + tail;
    assert lines[1..] == tail;
    assert Groups(lines) == [[]] + Groups(tail);
    if endsOnHeader {
      DropLastCons([], Groups(tail));
    }
  }

  /** A data line in front of lines starts the first record. */
  lemma OpenRecordsData(line: string, tail: seq<string>, endsOnHeader: bool)
    requires !IsHeader(line)
    requires endsOnHeader ==> LastIsHeader(tail)
    ensures |OpenRecords([line] + tail, endsOnHeader)| > 0 && |OpenRecords(tail, endsOnHeader)| > 0
    ensures OpenRecords([line] + tail, endsOnHeader)[0] == line + OpenRecords(tail, endsOnHeader)[0]
    ensures OpenRecords([line] + tail, endsOnHeader)[1..] == OpenRecords(tail, endsOnHeader)[1..]
  {
    var lines := [line] + tail;
    var g := Groups(tail);
    assert lines[1..] == tail;
    assert Groups(lines) == [line + g[0]] + g[1..];
  }

  /** A single header at the end of the input opens no record. */
  lemma OpenRecordsLastHeader(line: string)
    requires IsHeader(line)
    ensures OpenRecords([line], true) == [[]]
  {
    assert [line][1..] == [];
    assert Groups([line]) == [[]] + Groups([]);
  }

  /** A single data line at the end of the input is a record of its own. */
  lemma OpenRecordsLastData(line: string)
    requires !IsHeader(line)
    ensures OpenRecords([line], false) == [line]
  {
    assert [line][1..] == [];
    assert Groups([line]) == [line + Groups([])[0]] + Groups([])[1..];
    assert line + [] == line;
  }

  /** Reading a line from a good stream that holds text: the lines of what
      is left follow it, and whether the text ends on a header is decided
      by what is left, or by the line itself when it was the last. */
  lemma NextLine(s: Stream)
    requires s.Good() && s.rest != []
    ensures var (s1, line) := GetLine(s, [], '\n');
      && !s1.fail && s1.Sane()
      && SplitLines(s.rest) == [line] + SplitLines(s1.rest)
      && (s1.eof ==> SplitLines(s1.rest) == [] && EndsOnHeader(s.rest) == IsHeader(line))
      && (!s1.eof ==> EndsOnHeader(s.rest) == EndsOnHeader(s1.rest))
  {
    var (s1, line) := GetLine(s, [], '\n');
    GetLineSplits(s, []);
    if !s1.eof && s1.rest != [] {
      assert SplitLines(s1.rest) != [];
    }
  }

  /** What the inner loop promises: `r` completes the first record pending
      at `s`, and the others stay pending at `s'`. */
  predicate CompletesRecord(s: Stream, record: string, s': Stream, r: string) {
    var rs := RecordsOf(s.rest);
    |rs| > 0 && r == record + rs[0] && Pending(s') == rs[1..]
  }

  /** At the end of the input the open record stays as it is. */
  lemma EmptyStep(s: Stream, record: string)
    requires s.Good() && s.rest == []
    ensures var (s', r) := ReadRecord(s, record); CompletesRecord(s, record, s', r)
  {
    assert RecordsOf(s.rest) == [[]];
    assert record + [] == record;
  }

  /** The last line, with no newline after it, ends the input: a header
      leaves the record as it is, a data line is appended to it. */
  lemma LastLineStep(s: Stream, record: string)
    requires s.Good() && s.rest != []
    requires GetLine(s, [], '\n').0.eof
    ensures var (s', r) := ReadRecord(s, record); CompletesRecord(s, record, s', r)
  {
    var (s1, line) := GetLine(s, [], '\n');
    NextLine(s);
    assert SplitLines(s.rest) == [line];
    if IsHeader(line) {
      OpenRecordsLastHeader(line);
      assert record + [] == record;
    } else {
      OpenRecordsLastData(line);
      assert ReadRecord(s1, record + line) == (s1.(fail := true), record + line);
    }
  }

  /** A header line that does not end the input closes the record. */
  lemma HeaderStep(s: Stream, record: string)
    requires s.Good() && s.rest != []
    requires !GetLine(s, [], '\n').0.eof && IsHeader(GetLine(s, [], '\n').1)
    ensures var (s', r) := ReadRecord(s, record); CompletesRecord(s, record, s', r)
  {
    var (s1, line) := GetLine(s, [], '\n');
    NextLine(s);
    OpenRecordsHeader(line, SplitLines(s1.rest), EndsOnHeader(s.rest));
    assert record + [] == record;
  }

  /** A data line that does not end the input is the first part of the
      record the rest of the stream continues. */
  lemma DataStep(s: Stream, s1: Stream, line: string, record: string, s': Stream, r: string)
    requires s.Good() && s.rest != [] && !IsHeader(line)
    requires GetLine(s, [], '\n') == (s1, line) && !s1.eof
    requires CompletesRecord(s1, record + line, s', r)
    ensures CompletesRecord(s, record, s', r)
  {
    var rs, rs1 := RecordsOf(s.rest), RecordsOf(s1.rest);
    assert |rs| > 0 && |rs1| > 0 && rs[0] == line + rs1[0] && rs[1..] == rs1[1..] by {
      NextLine(s);
      var tail, e := SplitLines(s1.rest), EndsOnHeader(s.rest);
      assert rs == OpenRecords([line] + tail, e);
      assert rs1 == OpenRecords(tail, e);
      OpenRecordsData(line, tail, e);
    }
    Prepend(record, line, rs1[0]);
  }

  lemma Prepend(a: string, b: string, c: string)
    ensures a + b + c == a + (b + c)
  {
  }

  /** The inner loop, from a good stream, completes the first pending
      record and leaves the others pending. */
  lemma {:induction false} ReadRecordSplits(s: Stream, record: string)
    requires s.Good()
    ensures var (s', r) := ReadRecord(s, record); CompletesRecord(s, record, s', r)
    decreases |s.rest|
  {
    var (s1, line) := GetLine(s, [], '\n');
    if s.rest == [] {
      EmptyStep(s, record);
    } else if s1.eof {
      LastLineStep(s, record);
    } else if IsHeader(line) {
      HeaderStep(s, record);
    } else {
      ReadRecordSplits(s1, record + line);
      var (s', r) := ReadRecord(s1, record + line);
      assert ReadRecord(s, record) == (s', r);
      DataStep(s, s1, line, record, s', r);
    }
  }

  /** A record completed from an empty start at a stream that is not at
      the end is the first pending record. */
  lemma CompletesFirst(s: Stream, s': Stream, r: string)
    requires !s.eof && CompletesRecord(s, [], s', r)
    ensures |Pending(s)| > 0 && r == Pending(s)[0] && Pending(s') == Pending(s)[1..]
  {
    assert [] + RecordsOf(s.rest)[0] == RecordsOf(s.rest)[0];
  }

  /** One round of the outer loop: the first pending record, then what the
      later rounds read. */
  lemma OuterStep(rs: seq<string>, later: seq<string>, count: nat, n: nat)
    requires |rs| > 0 && (n == 0 || count < n)
    requires later == (if n == 0 then rs[1..] else Take(rs[1..], n - (count + 1)))
    ensures [rs[0]] + later == (if n == 0 then rs else Take(rs, n - count))
  {
    if n == 0 {
      assert [rs[0]] + rs[1..] == rs;
    }
  }

  /** The outer loop reads the pending records, at most `n - count` of
      them when `n` is not 0. */
  lemma {:induction false} ReadRecordsSplits(s: Stream, count: nat, n: nat)
    requires s.Sane() && (n == 0 || count <= n)
    ensures ReadRecords(s, count, n) == (if n == 0 then Pending(s) else Take(Pending(s), n - count))
    decreases |s.rest|, if s.eof then 0 else 1
  {
    if (n == 0 || count < n) && s.Good() {
      var (s', record) := ReadRecord(s, []);
      ReadRecordSplits(s, []);
      CompletesFirst(s, s', record);
      ReadRecordsSplits(s', count + 1, n);
      OuterStep(Pending(s), ReadRecords(s', count + 1, n), count, n);
    }
  }

  /** The records of the lines after the first, as the reference defines
      them, are the records of the text that follows the first line. */
  lemma AfterFirstLine(lines: seq<string>, line: string, tail: seq<string>,
                       atEnd: bool, unterminated: bool, endsOnHeader: bool)
    requires lines == [line] + tail
    requires atEnd == (|lines| == 1 && unterminated)
    requires !atEnd ==> endsOnHeader == (unterminated && LastIsHeader(tail))
    ensures (if atEnd then [] else OpenRecords(tail, endsOnHeader)) ==
      OpenRecords(lines[1..], unterminated && (|lines| == 1 || IsHeader(lines[|lines| - 1])))
  {
    assert lines[1..] == tail;
    if atEnd {
      assert tail == [];
      assert Groups(tail) == [[]];
    } else if |tail| > 0 {
      assert lines[|lines| - 1] == tail[|tail| - 1];
    }
  }

  /** Skipping the first line of a text: what is left is the text after
      it, and the end of the input is reached when that line was the only
      one and had no newline. Whether what is left ends on a header agrees
      with the text it came from. */
  lemma SkipLine(text: string)
    requires text != []
    ensures var (s, line) := GetLine(Open(text), [], '\n');
      && s.Sane()
      && SplitLines(text) == [line] + SplitLines(s.rest)
      && s.eof == (|SplitLines(text)| == 1 && Unterminated(text))
      && (!s.eof ==> (EndsOnHeader(s.rest) <==> Unterminated(text) && LastIsHeader(SplitLines(s.rest))))
  {
    var (s, line) := GetLine(Open(text), [], '\n');
    GetLineSplits(Open(text), []);
    if !s.eof && s.rest != [] {
      assert SplitLines(s.rest) != [];
    }
  }

  /** After the first line is skipped, the records of the text are pending. */
  lemma FirstLineSkipped(text: string)
    ensures var (s, _) := GetLine(Open(text), [], '\n');
      s.Sane() && Pending(s) == FastaRecords(text)
  {
    var (s, line) := GetLine(Open(text), [], '\n');
    if text != [] {
      SkipLine(text);
      AfterFirstLine(SplitLines(text), line, SplitLines(s.rest), s.eof, Unterminated(text), EndsOnHeader(s.rest));
    }
  }

  /** `from_fasta` reads exactly the records of the reference definition,
      the first `n` of them when `n` is not 0. */
  lemma FromFastaRecords(text: string, n: nat)
    ensures FromFastaText(text, n) == Limit(FastaRecords(text), n)
  {
    var (s, _) := GetLine(Open(text), [], '\n');
    FirstLineSkipped(text);
    ReadRecordsSplits(s, 0, n);
  }

  /** At most `n` records are read when `n` is not 0. */
  lemma FromFastaBounded(text: string, n: nat)
    requires n > 0
    ensures |FromFastaText(text, n)| <= n
  {
    FromFastaRecords(text, n);
  }

  // Writing FASTA text and reading it back.

  /** The lines of a FASTA text: for each record a header '>' + name, then
      the record's data lines. */
  function FastaLines(names: seq<string>, bodies: seq<seq<string>>): seq<string>
    requires |names| == |bodies|
    decreases |names|
  {
    if |names| == 0 then [] else [">" + names[0]] + bodies[0] + FastaLines(names[1..], bodies[1..])
  }

  /** The data lines of a record run together. */
  function Concat(lines: seq<string>): string
    decreases |lines|
  {
    if |lines| == 0 then [] else lines[0] + Concat(lines[1..])
  }

  /** Lines that can stand in a text as data lines of a record. */
  predicate DataLines(lines: seq<string>) {
    forall k | 0 <= k < |lines| :: !IsHeader(lines[k]) && '\n' !in lines[k]
  }

  /** Names and bodies that make a well-formed FASTA text. */
  predicate WellFormed(names: seq<string>, bodies: seq<seq<string>>) {
    && |names| == |bodies|
    && (forall k | 0 <= k < |names| :: '\n' !in names[k])
    && (forall k | 0 <= k < |bodies| :: DataLines(bodies[k]))
  }

  /** The records the bodies stand for. */
  function Joined(bodies: seq<seq<string>>): (records: seq<string>)
    ensures |records| == |bodies|
  {
    seq(|bodies|, k requires 0 <= k < |bodies| => Concat(bodies[k]))
  }

  /** Data lines in front of more lines all go to the open record. */
  lemma {:induction false} GroupsOfBody(body: seq<string>, rest: seq<string>)
    requires DataLines(body)
    ensures Groups(body + rest) == [Concat(body) + Groups(rest)[0]] + Groups(rest)[1..]
    decreases |body|
  {
    if |body| > 0 {
      var tail := body[1..];
      assert (body + rest)[1..] == tail + rest;
      assert DataLines(tail) by {
        assert forall k | 0 <= k < |tail| :: tail[k] == body[k + 1];
      }
      GroupsOfBody(tail, rest);
      var g := Groups(rest);
      assert body[0] + (Concat(tail) + g[0]) == Concat(body) + g[0];
    } else {
      var g := Groups(rest);
      assert body + rest == rest;
      assert [] + g[0] == g[0];
      assert [g[0]] + g[1..] == g;
    }
  }

  lemma WellFormedTail(names: seq<string>, bodies: seq<seq<string>>)
    requires |names| > 0 && WellFormed(names, bodies)
    ensures WellFormed(names[1..], bodies[1..]) && DataLines(bodies[0])
  {
    assert forall k | 0 <= k < |names| - 1 :: names[1..][k] == names[k + 1];
    assert forall k | 0 <= k < |bodies| - 1 :: bodies[1..][k] == bodies[k + 1];
  }

  /** After the first header, the lines of a FASTA text group into the
      records. */
  lemma {:induction false} GroupsOfFastaLines(names: seq<string>, bodies: seq<seq<string>>)
    requires |names| > 0 && WellFormed(names, bodies)
    ensures Groups(FastaLines(names, bodies)[1..]) == Joined(bodies)
    decreases |names|
  {
    var rest := FastaLines(names[1..], bodies[1..]);
    assert FastaLines(names, bodies)[1..] == bodies[0] + rest;
    WellFormedTail(names, bodies);
    GroupsOfBody(bodies[0], rest);
    if |names| == 1 {
      assert rest == [];
      assert Concat(bodies[0]) + [] == Concat(bodies[0]);
    } else {
      GroupsOfFastaLines(names[1..], bodies[1..]);
      assert IsHeader(rest[0]);
      assert rest[1..] == FastaLines(names[1..], bodies[1..])[1..];
      assert Groups(rest) == [[]] + Joined(bodies[1..]);
      assert Concat(bodies[0]) + [] == Concat(bodies[0]);
    }
  }

  lemma FastaLinesSingleLines(names: seq<string>, bodies: seq<seq<string>>)
    requires WellFormed(names, bodies)
    ensures forall k | 0 <= k < |FastaLines(names, bodies)| :: '\n' !in FastaLines(names, bodies)[k]
    decreases |names|
  {
    if |names| > 0 {
      WellFormedTail(names, bodies);
      FastaLinesSingleLines(names[1..], bodies[1..]);
      var lines := FastaLines(names, bodies);
      var rest := FastaLines(names[1..], bodies[1..]);
      forall k | 0 <= k < |lines|
        ensures '\n' !in lines[k]
      {
        if k == 0 {
          assert lines[k] == ">" + names[0];
        } else if k <= |bodies[0]| {
          assert lines[k] == bodies[0][k - 1];
        } else {
          assert lines[k] == rest[k - 1 - |bodies[0]|];
        }
      }
    }
  }

  /** Writing records as FASTA text, one header and any number of data
      lines each, and reading the text back gives the records. */
  lemma FastaRoundTrip(names: seq<string>, bodies: seq<seq<string>>)
    requires WellFormed(names, bodies)
    ensures FastaRecords(Terminated(FastaLines(names, bodies))) == Joined(bodies)
  {
    var lines := FastaLines(names, bodies);
    FastaLinesSingleLines(names, bodies);
    SplitTerminated(lines);
    if |names| > 0 {
      GroupsOfFastaLines(names, bodies);
    }
  }

  // Removal of duplicate records.

  /** The distinct records in order of first occurrence, and for every
      record the row of the distinct record it equals. */
  datatype Unique = Unique(rows: seq<string>, indices: seq<nat>)

  /** Position of the first `x` in `s`. */
  function FirstIndex(s: seq<string>, x: string): (p: nat)
    requires x in s
    ensures p < |s| && s[p] == x && x !in s[..p]
    decreases |s|
  {
    if s[0] == x then 0 else 1 + FirstIndex(s[1..], x)
  }

  /** Records with duplicates removed: a record equal to an earlier one maps
      to that one's row, any other record gets a new row at the end. */
  function Dedup(records: seq<string>): (u: Unique)
    ensures |u.indices| == |records|
    decreases |records|
  {
    if |records| == 0 then Unique([], [])
    else
      var prev := Dedup(records[..|records| - 1]);
      var x := records[|records| - 1];
      if x in prev.rows then Unique(prev.rows, prev.indices + [FirstIndex(prev.rows, x)])
      else Unique(prev.rows + [x], prev.indices + [|prev.rows|])
  }

  /** Rows and indices that describe `records` without duplicates: every
      record is the row its index names, no two rows are equal, and every
      row is one of the records. */
  predicate Describes(u: Unique, records: seq<string>) {
    && |u.indices| == |records|
    && (forall k | 0 <= k < |records| :: u.indices[k] < |u.rows| && u.rows[u.indices[k]] == records[k])
    && (forall p, q | 0 <= p < q < |u.rows| :: u.rows[p] != u.rows[q])
    && (forall p | 0 <= p < |u.rows| :: u.rows[p] in records)
  }

  /** One more record keeps the description: the index of an earlier row
      when it equals one, a new row otherwise. */
  lemma DescribesSnoc(u: Unique, records: seq<string>, x: string)
    requires Describes(u, records)
    ensures x in u.rows ==> Describes(Unique(u.rows, u.indices + [FirstIndex(u.rows, x)]), records + [x])
    ensures x !in u.rows ==> Describes(Unique(u.rows + [x], u.indices + [|u.rows|]), records + [x])
  {
    var rs := records + [x];
    assert forall k | 0 <= k < |records| :: rs[k] == records[k];
    assert forall p | 0 <= p < |u.rows| :: u.rows[p] in rs by {
      forall p | 0 <= p < |u.rows| ensures u.rows[p] in rs {
        assert u.rows[p] in records;
      }
    }
    if x !in u.rows {
      var rows := u.rows + [x];
      forall k | 0 <= k < |records| ensures records[k] in u.rows {
        assert u.rows[u.indices[k]] == records[k];
      }
      assert x !in records;
    }
  }

  /** `Dedup` describes its input. */
  lemma {:induction false} DedupDescribes(records: seq<string>)
    ensures Describes(Dedup(records), records)
    decreases |records|
  {
    if |records| > 0 {
      var prefix := records[..|records| - 1];
      var x := records[|records| - 1];
      DedupDescribes(prefix);
      DedupSnocDescribes(prefix, x);
      assert prefix + [x] == records;
    }
  }

  lemma DedupSnocDescribes(prefix: seq<string>, x: string)
    requires Describes(Dedup(prefix), prefix)
    ensures Describes(Dedup(prefix + [x]), prefix + [x])
  {
    assert (prefix + [x])[..|prefix|] == prefix;
    DescribesSnoc(Dedup(prefix), prefix, x);
  }

  /** The first record is the first row. */
  lemma {:induction false} DedupFirst(records: seq<string>)
    ensures |records| > 0 ==> |Dedup(records).rows| > 0 && Dedup(records).rows[0] == records[0]
    decreases |records|
  {
    if |records| > 1 {
      var prefix := records[..|records| - 1];
      DedupFirst(prefix);
      assert prefix[0] == records[0];
    }
  }

  lemma FirstIndexPrefix(s: seq<string>, y: string)
    requires |s| > 0 && y in s[..|s| - 1]
    ensures y in s && FirstIndex(s, y) == FirstIndex(s[..|s| - 1], y)
  {
    var prefix := s[..|s| - 1];
    var p := FirstIndex(prefix, y);
    assert s[..p] == prefix[..p];
  }

  /** A record that none before it equals first occurs at the end. */
  lemma FirstIndexLast(s: seq<string>)
    requires |s| > 0 && s[|s| - 1] !in s[..|s| - 1]
    ensures FirstIndex(s, s[|s| - 1]) == |s| - 1
  {
  }

  /** `rows` are records listed in the order of their first occurrences. */
  predicate FirstOccurrenceOrder(rows: seq<string>, records: seq<string>) {
    && (forall p | 0 <= p < |rows| :: rows[p] in records)
    && (forall p, q | 0 <= p < q < |rows| :: FirstIndex(records, rows[p]) < FirstIndex(records, rows[q]))
  }

  /** One more record keeps the order: it changes no first occurrence of
      an earlier record, and a new record occurs first at the end. */
  lemma OrderSnoc(rows: seq<string>, records: seq<string>, x: string)
    requires FirstOccurrenceOrder(rows, records)
    requires forall k | 0 <= k < |records| :: records[k] in rows
    ensures x in rows ==> FirstOccurrenceOrder(rows, records + [x])
    ensures x !in rows ==> FirstOccurrenceOrder(rows + [x], records + [x])
  {
    var rs := records + [x];
    assert rs[..|rs| - 1] == records;
    forall p | 0 <= p < |rows|
      ensures rows[p] in rs && FirstIndex(rs, rows[p]) == FirstIndex(records, rows[p])
    {
      FirstIndexPrefix(rs, rows[p]);
    }
    if x !in rows {
      assert x !in records;
      FirstIndexLast(rs);
      var rows' := rows + [x];
      forall p | 0 <= p < |rows|
        ensures FirstIndex(rs, rows'[p]) < FirstIndex(rs, x)
      {
        assert rows'[p] == rows[p];
      }
    }
  }

  /** The rows `Dedup` keeps after one more record. */
  lemma DedupRowsSnoc(records: seq<string>)
    requires |records| > 0
    ensures var prev := Dedup(records[..|records| - 1]);
      var x := records[|records| - 1];
      Dedup(records).rows == if x in prev.rows then prev.rows else prev.rows + [x]
  {
  }

  /** Every record has a row. */
  lemma RowsCover(u: Unique, records: seq<string>)
    requires Describes(u, records)
    ensures forall k | 0 <= k < |records| :: records[k] in u.rows
  {
    forall k | 0 <= k < |records| ensures records[k] in u.rows {
      assert u.rows[u.indices[k]] == records[k];
    }
  }

  /** The rows are in order of the records' first occurrences. */
  lemma {:induction false} DedupInOrder(records: seq<string>)
    ensures FirstOccurrenceOrder(Dedup(records).rows, records)
    decreases |records|
  {
    if |records| > 0 {
      var prefix := records[..|records| - 1];
      var x := records[|records| - 1];
      var rows := Dedup(prefix).rows;
      assert FirstOccurrenceOrder(rows, prefix) by {
        DedupInOrder(prefix);
      }
      assert forall k | 0 <= k < |prefix| :: prefix[k] in rows by {
        DedupDescribes(prefix);
        RowsCover(Dedup(prefix), prefix);
      }
      OrderSnoc(rows, prefix, x);
      assert prefix + [x] == records;
      DedupRowsSnoc(records);
    }
  }

  // The matrix of a FASTA file.

  /** `from_fasta`: the matrix of the records of the text, the first `n`
      of them when `n` is not 0. */
  function FromFasta(text: string, n: nat, maxDist: nat): (r: Result<DataSet>)
    ensures r == FromStrings(Limit(FastaRecords(text), n), maxDist)
    ensures r.Ok? && n > 0 ==> r.value.nsamples <= n
  {
    FromFastaRecords(text, n);
    FromStrings(FromFastaText(text, n), maxDist)
  }

  /** A matrix of distinct records and the row of each record read. */
  datatype Indexed = Indexed(data: DataSet, sequenceIndices: seq<nat>)

  /** The matrix stands for `records`: all records have one length, each
      maps to a row, two records share a row exactly when they are equal,
      and the entry of two rows is the distance of their records, 0 on the
      diagonal. */
  predicate Represents(x: Indexed, records: seq<string>) {
    && |x.sequenceIndices| == |records|
    && (|records| > 0 ==> SameLength(records))
    && forall k1, k2 | 0 <= k1 < |records| && 0 <= k2 < |records| ::
         var i, j := x.sequenceIndices[k1], x.sequenceIndices[k2];
         && i < x.data.nsamples && j < x.data.nsamples
         && (i == j <==> records[k1] == records[k2])
         && InRange(x.data, i, j)
         && Get(x.data, i, j) == (if i == j then 0 else Distance(records[k1], records[k2]))
  }

  /** The matrix of the distinct records, with the indices of the records,
      stands for the records. */
  lemma UniqueMatrix(records: seq<string>, u: Unique, ds: DataSet)
    requires Describes(u, records)
    requires ds.nsamples == |u.rows| && (|u.rows| > 0 ==> SameLength(u.rows))
    requires forall i: nat, j: nat | i < |u.rows| && j < |u.rows| ::
      InRange(ds, i, j) && Get(ds, i, j) == (if i == j then 0 else Distance(u.rows[i], u.rows[j]))
    ensures Represents(Indexed(ds, u.indices), records)
  {
    if |records| > 0 {
      assert u.rows[u.indices[0]] == records[0];
      assert SameLength(u.rows);
      forall k | 0 <= k < |records| ensures |records[k]| == |records[0]| {
        assert u.rows[u.indices[k]] == records[k];
        assert u.rows[u.indices[0]] == records[0];
      }
    }
  }

  /** `from_fasta` with duplicate removal: the matrix holds one row per
      distinct record, in order of first occurrence, and every record read
      is mapped to its row. */
  function FromFastaUnique(text: string, n: nat, maxDist: nat): (r: Result<Indexed>)
    ensures var records := Limit(FastaRecords(text), n);
      && (r == Err(EmptySequence) <==> |records| == 0 || |records[0]| == 0)
      && (r.Ok? <==> FromStrings(Dedup(records).rows, maxDist).Ok?)
      && (r.Ok? ==> r.value.data.nsamples == |Dedup(records).rows|)
      && (r.Ok? ==> r.value.sequenceIndices == Dedup(records).indices)
      && (r.Ok? ==> Represents(r.value, records))
  {
    FromFastaRecords(text, n);
    var records := FromFastaText(text, n);
    var u := Dedup(records);
    DedupDescribes(records);
    DedupFirst(records);
    var ds :- FromStrings(u.rows, maxDist);
    UniqueMatrix(records, u, ds);
    Ok(Indexed(ds, u.indices))
  }
}
