/** The FASTA scenarios of the library's test suite: two single-line
    records, two multi-line records, and six records with duplicates. */
module FastaScenarios {
  import opened Errors
  import opened Streams
  import opened Kernel
  import opened DataSets
  import opened Fasta
  import opened Scenarios

  const First: string := "ACGTGTCGTGTCGACGTGTCG"
  const Second: string := "ACGTGTCGTTTCGACGAGTCG"
  const Sixth: string := "ACGTGTCGTATCGACGTGTCG"
  const Tail: string := "ACGTGTCGTGTCG"

  lemma FirstSecond()
    ensures |First| == |Second| == |Sixth| == 21
    ensures Distance(First, Second) == 2 && Distance(Second, First) == 2
  {
    Fixture8();
    DistanceSymmetric(First, Second);
  }

  /** The sixth record differs from the first in one position and from
      the second in two. */
  lemma SixthDistances()
    ensures Distance(First, Sixth) == 1 && Distance(Sixth, First) == 1
    ensures Distance(Second, Sixth) == 2 && Distance(Sixth, Second) == 2
  {
    HeadPiece();
    MiddlePiece();
    assert Distance("TGTCGACG", "TATCGACG") == 1;
    assert Distance("TTTCGACG", "TATCGACG") == 1;
    assert Distance("TGTCG", "TGTCG") == 0;
    assert Distance("AGTCG", "TGTCG") == 1;
    assert First == "ACGTGTCG" + "TGTCGACG" + "TGTCG";
    assert Second == "ACGTGTCG" + "TTTCGACG" + "AGTCG";
    assert Sixth == "ACGTGTCG" + "TATCGACG" + "TGTCG";
    DistanceAppend("ACGTGTCG", "TGTCGACG", "ACGTGTCG", "TATCGACG");
    DistanceAppend("ACGTGTCG" + "TGTCGACG", "TGTCG", "ACGTGTCG" + "TATCGACG", "TGTCG");
    DistanceAppend("ACGTGTCG", "TTTCGACG", "ACGTGTCG", "TATCGACG");
    DistanceAppend("ACGTGTCG" + "TTTCGACG", "AGTCG", "ACGTGTCG" + "TATCGACG", "TGTCG");
    DistanceSymmetric(First, Sixth);
    DistanceSymmetric(Second, Sixth);
  }

  lemma ConcatOne(x: string)
    ensures Concat([x]) == x
  {
    assert Concat([x]) == x + Concat([]);
  }

  /** Single data lines that do not start a header or hold a newline. */
  lemma OneLine(x: string)
    requires |x| > 0 && x[0] != '>' && '\n' !in x
    ensures DataLines([x]) && Concat([x]) == x
  {
    ConcatOne(x);
  }

  /** A file of two records, each any number of data lines, yields the
      matrix of the two joined records. */
  lemma TwoRecordFile(b0: seq<string>, b1: seq<string>, n: nat, maxDist: nat)
    requires DataLines(b0) && DataLines(b1) && (n == 0 || n >= 2)
    requires |Concat(b0)| == |Concat(b1)| > 0 && Distance(Concat(b0), Concat(b1)) <= maxDist
    ensures var r := FromFasta(Terminated(FastaLines(["seq0", "seq1"], [b0, b1])), n, maxDist);
      && r.Ok? && r.value.nsamples == 2
      && InRange(r.value, 0, 1) && InRange(r.value, 1, 0)
      && Get(r.value, 0, 0) == 0 && Get(r.value, 1, 1) == 0
      && Get(r.value, 0, 1) == Distance(Concat(b0), Concat(b1))
      && Get(r.value, 1, 0) == Distance(Concat(b0), Concat(b1))
  {
    var names, bodies := ["seq0", "seq1"], [b0, b1];
    assert WellFormed(names, bodies);
    FastaRoundTrip(names, bodies);
    assert Joined(bodies) == [Concat(b0), Concat(b1)];
    PairMatrix(Concat(b0), Concat(b1), maxDist);
  }

  /** The same file read with duplicates removed: two different records
      stay two rows, mapped to rows 0 and 1, with the same matrix. */
  lemma TwoRecordUnique(b0: seq<string>, b1: seq<string>, n: nat, maxDist: nat)
    requires DataLines(b0) && DataLines(b1) && (n == 0 || n >= 2)
    requires |Concat(b0)| == |Concat(b1)| > 0 && Distance(Concat(b0), Concat(b1)) <= maxDist
    requires Concat(b0) != Concat(b1)
    ensures var r := FromFastaUnique(Terminated(FastaLines(["seq0", "seq1"], [b0, b1])), n, maxDist);
      && r.Ok? && r.value.data.nsamples == 2 && r.value.sequenceIndices == [0, 1]
      && InRange(r.value.data, 0, 1) && InRange(r.value.data, 1, 0)
      && Get(r.value.data, 0, 0) == 0 && Get(r.value.data, 1, 1) == 0
      && Get(r.value.data, 0, 1) == Distance(Concat(b0), Concat(b1))
      && Get(r.value.data, 1, 0) == Distance(Concat(b0), Concat(b1))
  {
    var names, bodies := ["seq0", "seq1"], [b0, b1];
    var x, y := Concat(b0), Concat(b1);
    assert WellFormed(names, bodies);
    FastaRoundTrip(names, bodies);
    assert Joined(bodies) == [x, y];
    DedupOpening(x, y);
    assert SameLength([x, y]) && FitsAccumulator([x, y], maxDist) by {
      DistanceSymmetric(x, y);
    }
    var text := Terminated(FastaLines(names, bodies));
    UniqueOfRecords(text, n, maxDist, [x, y], [x, y], [0, 1]);
    PairEntries(FromFastaUnique(text, n, maxDist).value, x, y);
  }

  /** The entries of a matrix standing for two records on rows 0 and 1. */
  lemma PairEntries(m: Indexed, a: string, b: string)
    requires |a| == |b| && Represents(m, [a, b]) && m.sequenceIndices == [0, 1]
    ensures InRange(m.data, 0, 1) && InRange(m.data, 1, 0)
    ensures Get(m.data, 0, 1) == Distance(a, b) && Get(m.data, 1, 0) == Distance(a, b)
  {
    assert [a, b][0] == a && [a, b][1] == b;
    assert m.sequenceIndices[0] == 0 && m.sequenceIndices[1] == 1;
    assert InRange(m.data, 0, 1) && InRange(m.data, 1, 0);
    DistanceSymmetric(a, b);
  }

  /** The single-line file: two records, each on one line. */
  lemma SingleLineFile(n: nat, maxDist: nat)
    requires (n == 0 || n >= 2) && maxDist >= 2
    ensures var text := Terminated(FastaLines(["seq0", "seq1"], [[First], [Second]]));
      var r := FromFasta(text, n, maxDist);
      && r.Ok? && r.value.nsamples == 2
      && InRange(r.value, 0, 1) && InRange(r.value, 1, 0)
      && Get(r.value, 0, 0) == 0 && Get(r.value, 1, 1) == 0
      && Get(r.value, 0, 1) == 2 && Get(r.value, 1, 0) == 2
    ensures var text := Terminated(FastaLines(["seq0", "seq1"], [[First], [Second]]));
      var r := FromFastaUnique(text, n, maxDist);
      && r.Ok? && r.value.data.nsamples == 2 && r.value.sequenceIndices == [0, 1]
      && InRange(r.value.data, 0, 1) && InRange(r.value.data, 1, 0)
      && Get(r.value.data, 0, 0) == 0 && Get(r.value.data, 1, 1) == 0
      && Get(r.value.data, 0, 1) == 2 && Get(r.value.data, 1, 0) == 2
  {
    OneLine(First);
    OneLine(Second);
    FirstSecond();
    ConcatOne(First);
    ConcatOne(Second);
    FixtureLines();
    TwoRecordFile([First], [Second], n, maxDist);
    TwoRecordUnique([First], [Second], n, maxDist);
  }

  /** Three data lines in order run together. */
  lemma ConcatThree(x: string, y: string, z: string)
    ensures Concat([x, y, z]) == x + (y + z)
  {
    assert [x, y, z][1..] == [y, z];
    assert [y, z][1..] == [z];
    ConcatOne(z);
  }

  lemma ThreeLines(x: string, y: string, z: string)
    requires DataLines([x]) && DataLines([y]) && DataLines([z])
    ensures DataLines([x, y, z])
  {
    assert [x][0] == x && [y][0] == y && [z][0] == z;
  }

  /** The tail shared by the multi-line records matches itself. */
  lemma SharedTail()
    ensures |First + Tail| == 34 && Distance(First + Tail, First + Tail) == 0
  {
    HeadPiece();
    assert First == "ACGTGTCG" + "TGTCGACG" + "TGTCG";
    assert Tail == "ACGTGTCG" + "TGTCG";
    assert Distance("TGTCGACG", "TGTCGACG") == 0;
    assert Distance("TGTCG", "TGTCG") == 0;
    DistanceAppend("ACGTGTCG", "TGTCGACG", "ACGTGTCG", "TGTCGACG");
    DistanceAppend("ACGTGTCG" + "TGTCGACG", "TGTCG", "ACGTGTCG" + "TGTCGACG", "TGTCG");
    DistanceAppend("ACGTGTCG", "TGTCG", "ACGTGTCG", "TGTCG");
    DistanceAppend(First, Tail, First, Tail);
  }

  /** The multi-line file: two records of three lines each, differing only
      in their first lines. */
  lemma MultiLineFile(maxDist: nat)
    requires maxDist >= 2
    ensures var text := Terminated(FastaLines(["seq0", "seq1"], [[First, First, Tail], [Second, First, Tail]]));
      var r := FromFasta(text, 2, maxDist);
      && r.Ok? && r.value.nsamples == 2
      && InRange(r.value, 0, 1) && InRange(r.value, 1, 0)
      && Get(r.value, 0, 0) == 0 && Get(r.value, 1, 1) == 0
      && Get(r.value, 0, 1) == 2 && Get(r.value, 1, 0) == 2
    ensures var text := Terminated(FastaLines(["seq0", "seq1"], [[First, First, Tail], [Second, First, Tail]]));
      var r := FromFastaUnique(text, 2, maxDist);
      && r.Ok? && r.value.data.nsamples == 2 && r.value.sequenceIndices == [0, 1]
      && InRange(r.value.data, 0, 1) && InRange(r.value.data, 1, 0)
      && Get(r.value.data, 0, 0) == 0 && Get(r.value.data, 1, 1) == 0
      && Get(r.value.data, 0, 1) == 2 && Get(r.value.data, 1, 0) == 2
  {
    MultiLineBodies();
    TwoRecordFile([First, First, Tail], [Second, First, Tail], 2, maxDist);
    TwoRecordUnique([First, First, Tail], [Second, First, Tail], 2, maxDist);
  }

  /** The multi-line records are data lines that join to two different
      sequences of one length at distance 2. */
  lemma MultiLineBodies()
    ensures DataLines([First, First, Tail]) && DataLines([Second, First, Tail])
    ensures var x, y := Concat([First, First, Tail]), Concat([Second, First, Tail]);
      |x| == |y| > 0 && x != y && Distance(x, y) == 2
  {
    OneLine(First);
    OneLine(Second);
    OneLine(Tail);
    ThreeLines(First, First, Tail);
    ThreeLines(Second, First, Tail);
    ConcatThree(First, First, Tail);
    ConcatThree(Second, First, Tail);
    FirstSecond();
    SharedTail();
    DistanceAppend(First, First + Tail, Second, First + Tail);
    assert First[9] == 'G' && Second[9] == 'T';
    assert (First + (First + Tail))[9] == First[9];
    assert (Second + (First + Tail))[9] == Second[9];
  }

  /** A record equal to row `p`, and to no earlier row, maps to row `p`. */
  lemma RepeatStep(records: seq<string>, x: string, rows: seq<string>, indices: seq<nat>, p: nat)
    requires Dedup(records) == Unique(rows, indices)
    requires p < |rows| && rows[p] == x && x !in rows[..p]
    ensures Dedup(records + [x]) == Unique(rows, indices + [p])
  {
    assert (records + [x])[..|records|] == records;
    FirstIndexAt(rows, x, p);
  }

  lemma {:induction false} FirstIndexAt(s: seq<string>, x: string, p: nat)
    requires p < |s| && s[p] == x && x !in s[..p]
    ensures FirstIndex(s, x) == p
    decreases p
  {
    if p > 0 {
      assert s[..p][0] == s[0];
      assert s[1..][..p - 1] == s[..p][1..];
      FirstIndexAt(s[1..], x, p - 1);
    }
  }

  /** A record equal to no row opens a new row at the end. */
  lemma NewStep(records: seq<string>, x: string, rows: seq<string>, indices: seq<nat>)
    requires Dedup(records) == Unique(rows, indices) && x !in rows
    ensures Dedup(records + [x]) == Unique(rows + [x], indices + [|rows|])
  {
    assert (records + [x])[..|records|] == records;
  }

  /** The first rows of the duplicates pattern: a new value, then the
      repeats of a second one. */
  lemma DedupOpening(a: string, b: string)
    requires a != b
    ensures Dedup([a, b]) == Unique([a, b], [0, 1])
  {
    NewStep([], a, [], []);
    assert [] + [a] == [a];
    NewStep([a], b, [a], [0]);
    assert [a] + [b] == [a, b];
  }

  lemma DedupRepeats(a: string, b: string)
    requires a != b
    ensures Dedup([a, b, b, b]) == Unique([a, b], [0, 1, 1, 1])
  {
    DedupOpening(a, b);
    assert [a, b][..1] == [a];
    RepeatStep([a, b], b, [a, b], [0, 1], 1);
    assert [a, b] + [b] == [a, b, b];
    RepeatStep([a, b, b], b, [a, b], [0, 1, 1], 1);
    assert [a, b, b] + [b] == [a, b, b, b];
  }

  /** Three distinct values in the order of the duplicates fixture. */
  lemma DedupPattern(a: string, b: string, c: string)
    requires a != b && a != c && b != c
    ensures Dedup([a, b, b, b, a, c]) == Unique([a, b, c], [0, 1, 1, 1, 0, 2])
  {
    DedupRepeats(a, b);
    RepeatStep([a, b, b, b], a, [a, b], [0, 1, 1, 1], 0);
    assert [a, b, b, b] + [a] == [a, b, b, b, a];
    NewStep([a, b, b, b, a], c, [a, b], [0, 1, 1, 1, 0]);
    assert [a, b, b, b, a] + [c] == [a, b, b, b, a, c];
  }

  /** Bodies of one line each join to their lines. */
  lemma {:induction false} JoinedSingles(bodies: seq<seq<string>>, records: seq<string>)
    requires |bodies| == |records|
    requires forall k | 0 <= k < |bodies| :: bodies[k] == [records[k]]
    ensures Joined(bodies) == records
  {
    forall k | 0 <= k < |bodies|
      ensures Joined(bodies)[k] == records[k]
    {
      ConcatOne(records[k]);
    }
  }

  /** The six-record file reads back as its six records, within the limit. */
  lemma PatternRecords(a: string, b: string, c: string, n: nat)
    requires DataLines([a]) && DataLines([b]) && DataLines([c]) && (n == 0 || n >= 6)
    ensures Limit(FastaRecords(Terminated(FastaLines(DuplicateNames, [[a], [b], [b], [b], [a], [c]]))), n)
      == [a, b, b, b, a, c]
  {
    var bodies := [[a], [b], [b], [b], [a], [c]];
    assert WellFormed(DuplicateNames, bodies);
    FastaRoundTrip(DuplicateNames, bodies);
    JoinedSingles(bodies, [a, b, b, b, a, c]);
  }

  lemma PatternFits(a: string, b: string, c: string, maxDist: nat)
    requires |a| == |b| == |c| > 0
    requires Distance(a, b) <= maxDist && Distance(a, c) <= maxDist && Distance(b, c) <= maxDist
    ensures SameLength([a, b, c]) && FitsAccumulator([a, b, c], maxDist)
  {
  }

  /** A single-line file of six records in the pattern a, b, b, b, a, c
      reads, with duplicates removed, as the matrix of a, b and c. */
  lemma PatternFile(a: string, b: string, c: string, n: nat, maxDist: nat)
    requires a != b && a != c && b != c && DataLines([a]) && DataLines([b]) && DataLines([c])
    requires |a| == |b| == |c| > 0 && (n == 0 || n >= 6)
    requires Distance(a, b) <= maxDist && Distance(a, c) <= maxDist && Distance(b, c) <= maxDist
    ensures var r := FromFastaUnique(Terminated(FastaLines(DuplicateNames, [[a], [b], [b], [b], [a], [c]])), n, maxDist);
      && r.Ok? && r.value.data.nsamples == 3
      && r.value.sequenceIndices == [0, 1, 1, 1, 0, 2]
      && Represents(r.value, [a, b, b, b, a, c])
  {
    PatternRecords(a, b, c, n);
    DedupPattern(a, b, c);
    PatternFits(a, b, c, maxDist);
    var text := Terminated(FastaLines(DuplicateNames, [[a], [b], [b], [b], [a], [c]]));
    UniqueOfRecords(text, n, maxDist, [a, b, b, b, a, c], [a, b, c], [0, 1, 1, 1, 0, 2]);
  }

  /** Reading with duplicates removed succeeds on records whose distinct
      rows are of one nonzero length and within the accumulator. */
  lemma UniqueOfRecords(text: string, n: nat, maxDist: nat, records: seq<string>, rows: seq<string>, indices: seq<nat>)
    requires Limit(FastaRecords(text), n) == records && Dedup(records) == Unique(rows, indices)
    requires |rows| > 0 && |rows[0]| > 0 && SameLength(rows) && FitsAccumulator(rows, maxDist)
    ensures var r := FromFastaUnique(text, n, maxDist);
      && r.Ok? && r.value.data.nsamples == |rows|
      && r.value.sequenceIndices == indices
      && Represents(r.value, records)
  {
  }

  /** The entries of a matrix standing for records in the pattern a, b,
      b, b, a, c with rows a, b and c. */
  lemma PatternEntries(x: Indexed, a: string, b: string, c: string)
    requires |a| == |b| == |c|
    requires Represents(x, [a, b, b, b, a, c]) && x.sequenceIndices == [0, 1, 1, 1, 0, 2]
    ensures forall i: nat, j: nat | i < 3 && j < 3 :: InRange(x.data, i, j)
    ensures Get(x.data, 0, 1) == Distance(a, b) && Get(x.data, 1, 0) == Distance(b, a)
    ensures Get(x.data, 0, 2) == Distance(a, c) && Get(x.data, 2, 0) == Distance(c, a)
    ensures Get(x.data, 1, 2) == Distance(b, c) && Get(x.data, 2, 1) == Distance(c, b)
  {
    var records := [a, b, b, b, a, c];
    assert records[0] == a && records[1] == b && records[5] == c;
    assert x.sequenceIndices[0] == 0 && x.sequenceIndices[1] == 1 && x.sequenceIndices[5] == 2;
    assert InRange(x.data, 0, 1) && InRange(x.data, 1, 0);
    assert InRange(x.data, 0, 2) && InRange(x.data, 2, 0);
    assert InRange(x.data, 1, 2) && InRange(x.data, 2, 1);
  }

  /** The fixture's records are single data lines, pairwise different. */
  lemma FixtureLines()
    ensures DataLines([First]) && DataLines([Second]) && DataLines([Sixth])
    ensures First != Second && First != Sixth && Second != Sixth
  {
    OneLine(First);
    OneLine(Second);
    OneLine(Sixth);
    assert First[9] != Second[9] && First[9] != Sixth[9] && Second[9] != Sixth[9];
  }

  const DuplicateNames: seq<string> := ["seq0", "seq1", "seq2", "seq3", "seq4", "seq5"]

  /** The file with duplicates: six records, of which the second, third
      and fourth are equal and the first and fifth are equal. Removing
      duplicates leaves three rows, the records map to rows 0, 1, 1, 1, 0,
      2, and the rows are at distances 2, 1 and 2. */
  lemma DuplicatesFile(n: nat, maxDist: nat)
    requires (n == 0 || n >= 6) && maxDist >= 2
    ensures var text := Terminated(FastaLines(DuplicateNames, [[First], [Second], [Second], [Second], [First], [Sixth]]));
      var r := FromFastaUnique(text, n, maxDist);
      && r.Ok? && r.value.data.nsamples == 3
      && r.value.sequenceIndices == [0, 1, 1, 1, 0, 2]
      && (forall i: nat, j: nat | i < 3 && j < 3 :: InRange(r.value.data, i, j))
      && Get(r.value.data, 0, 0) == 0 && Get(r.value.data, 1, 1) == 0 && Get(r.value.data, 2, 2) == 0
      && Get(r.value.data, 0, 1) == 2 && Get(r.value.data, 1, 0) == 2
      && Get(r.value.data, 0, 2) == 1 && Get(r.value.data, 2, 0) == 1
      && Get(r.value.data, 1, 2) == 2 && Get(r.value.data, 2, 1) == 2
  {
    FixtureLines();
    FirstSecond();
    SixthDistances();
    PatternFile(First, Second, Sixth, n, maxDist);
    var text := Terminated(FastaLines(DuplicateNames, [[First], [Second], [Second], [Second], [First], [Sixth]]));
    PatternEntries(FromFastaUnique(text, n, maxDist).value, First, Second, Sixth);
  }
}
