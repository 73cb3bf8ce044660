/** The scenarios of the library's test suite, stated over the model:
    the character table through two one-symbol sequences, the fixture
    pairs at distance two, the validation failures and the overflow. */
module Scenarios {
  import opened Errors
  import opened Encoding
  import opened Kernel
  import opened DataSets

  /** The letters and the sample of other characters the tests use. */
  const ValidChars: seq<char> := ['A', 'C', 'G', 'T']
  const InvalidChars: seq<char> := [' ', 'N', '*', '?', 'a', '.']

  /** A matrix built from two sequences holds their distance off the
      diagonal in both orders and 0 on it. */
  lemma PairMatrix(a: string, b: string, maxDist: nat)
    requires |a| == |b| > 0 && Distance(a, b) <= maxDist
    ensures FromStrings([a, b], maxDist).Ok?
    ensures var ds := FromStrings([a, b], maxDist).value;
      && ds.nsamples == 2
      && InRange(ds, 0, 1) && InRange(ds, 1, 0)
      && Get(ds, 0, 0) == 0 && Get(ds, 1, 1) == 0
      && Get(ds, 0, 1) == Distance(a, b) && Get(ds, 1, 0) == Distance(a, b)
  {
    DistanceSymmetric(a, b);
    assert FitsAccumulator([a, b], maxDist);
  }

  /** The distance of two one-symbol sequences is 0 when the symbols match
      in the tested table and 1 otherwise. */
  lemma SymbolDistance(c1: char, c2: char, maxDist: nat)
    requires maxDist >= 1
    ensures FromStrings([[c1], [c2]], maxDist).Ok?
    ensures var ds := FromStrings([[c1], [c2]], maxDist).value;
      && InRange(ds, 0, 1) && InRange(ds, 1, 0)
      && Get(ds, 0, 1) == Get(ds, 1, 0) == (if TableMatch(c1, c2) then 0 else 1)
  {
    PairMatrix([c1], [c2], maxDist);
  }

  /** The character cases the tests enumerate: equal letters and a letter
      against the gap have distance 0; distinct letters, and any of the
      sampled other characters against a letter, the gap or one of them
      (itself included) have distance 1. */
  lemma TestedSymbolTable()
    ensures forall c | c in ValidChars :: TableMatch(c, c)
    ensures forall c | c in ValidChars :: TableMatch(c, Gap) && TableMatch(Gap, c)
    ensures forall c1, c2 | c1 in ValidChars && c2 in ValidChars && c1 != c2 :: !TableMatch(c1, c2)
    ensures forall c1, c2 | c1 in ValidChars && c2 in InvalidChars :: !TableMatch(c1, c2) && !TableMatch(c2, c1)
    ensures forall c1, c2 | c1 in InvalidChars && c2 in InvalidChars :: !TableMatch(c1, c2)
    ensures forall c | c in InvalidChars :: !TableMatch(c, Gap) && !TableMatch(Gap, c)
  {
  }

  /** The 24-symbol pieces of the longest fixture pair. */
  const Block: string := "ACGTGTCGTGTCGACGTGTCG---"
  const Varied: string := "ACGTGTCGTTTCGACGAGTCGGGG"

  /** The fixture pairs of the test suite; every one is at distance two. */
  const Fixtures: seq<(string, string)> := [
    ("AC",
     "CA"),
    ("AC",
     "TG"),
    ("ACG",
     "AGT"),
    ("ACG",
     "-TT"),
    ("ACG",
     "T-T"),
    ("ACG",
     "TA-"),
    ("ACG",
     "CCC"),
    ("ACGT",
     "AGGG"),
    ("ACGTGTCGTGTCGACGTGTCG",
     "ACGTGTCGTTTCGACGAGTCG"),
    ("ACGTGTCGTGTCGACGTGTCGT",
     "ACGTGTCGTTTCGACGAGTCGT"),
    ("ACGTGTCGTGTCGACGTGTCGT-",
     "ACGTGTCGTTTCGACGAGTCGTA"),
    ("ACGTGTCGTGTCGACGTGTCG----------",
     "ACGTGTCGTTTCGACGAGTCGGGG-------"),
    ("ACGTGTCGTGTCGACGTGTCG----------A",
     "ACGTGTCGTTTCGACGAGTCGGGG-------A"),
    ("ACGTGTCGTGTCGACGTGTCG----------AG",
     "ACGTGTCGTTTCGACGAGTCGGGG-------AG"),
    (Block + Block + Block,
     Varied + Block + Block)
  ]

  lemma Fixture0()
    ensures |Fixtures[0].0| == |Fixtures[0].1| && Distance(Fixtures[0].0, Fixtures[0].1) == 2
  {

  }

  lemma Fixture1()
    ensures |Fixtures[1].0| == |Fixtures[1].1| && Distance(Fixtures[1].0, Fixtures[1].1) == 2
  {

  }

  lemma Fixture2()
    ensures |Fixtures[2].0| == |Fixtures[2].1| && Distance(Fixtures[2].0, Fixtures[2].1) == 2
  {

  }

  lemma Fixture3()
    ensures |Fixtures[3].0| == |Fixtures[3].1| && Distance(Fixtures[3].0, Fixtures[3].1) == 2
  {

  }

  lemma Fixture4()
    ensures |Fixtures[4].0| == |Fixtures[4].1| && Distance(Fixtures[4].0, Fixtures[4].1) == 2
  {

  }

  lemma Fixture5()
    ensures |Fixtures[5].0| == |Fixtures[5].1| && Distance(Fixtures[5].0, Fixtures[5].1) == 2
  {

  }

  lemma Fixture6()
    ensures |Fixtures[6].0| == |Fixtures[6].1| && Distance(Fixtures[6].0, Fixtures[6].1) == 2
  {

  }

  lemma Fixture7()
    ensures |Fixtures[7].0| == |Fixtures[7].1| && Distance(Fixtures[7].0, Fixtures[7].1) == 2
  {

  }

  /** Distances of the 8-symbol pieces the longer fixtures are cut into. */
  lemma HeadPiece()
    ensures Distance("ACGTGTCG", "ACGTGTCG") == 0
  {
  }

  lemma MiddlePiece()
    ensures Distance("TGTCGACG", "TTTCGACG") == 1 && Distance("TGTCGACG", "TGTCGACG") == 0
  {
  }

  lemma GapPiece()
    ensures Distance("TGTCG---", "AGTCGGGG") == 1 && Distance("TGTCG---", "TGTCG---") == 0
  {
  }

  lemma Fixture8()
    ensures |Fixtures[8].0| == |Fixtures[8].1| && Distance(Fixtures[8].0, Fixtures[8].1) == 2
  {
    var a, b := Fixtures[8].0, Fixtures[8].1;
    assert a == "ACGTGTCG" + "TGTCGACG" + "TGTCG";
    assert b == "ACGTGTCG" + "TTTCGACG" + "AGTCG";
    HeadPiece();
    MiddlePiece();
    assert Distance("TGTCG", "AGTCG") == 1;
    DistanceAppend("ACGTGTCG", "TGTCGACG", "ACGTGTCG", "TTTCGACG");
    DistanceAppend("ACGTGTCG" + "TGTCGACG", "TGTCG", "ACGTGTCG" + "TTTCGACG", "AGTCG");
  }

  lemma Fixture9()
    ensures |Fixtures[9].0| == |Fixtures[9].1| && Distance(Fixtures[9].0, Fixtures[9].1) == 2
  {
    var a, b := Fixtures[9].0, Fixtures[9].1;
    assert a == "ACGTGTCG" + "TGTCGACG" + "TGTCGT";
    assert b == "ACGTGTCG" + "TTTCGACG" + "AGTCGT";
    HeadPiece();
    MiddlePiece();
    assert Distance("TGTCGT", "AGTCGT") == 1;
    DistanceAppend("ACGTGTCG", "TGTCGACG", "ACGTGTCG", "TTTCGACG");
    DistanceAppend("ACGTGTCG" + "TGTCGACG", "TGTCGT", "ACGTGTCG" + "TTTCGACG", "AGTCGT");
  }

  lemma Fixture10()
    ensures |Fixtures[10].0| == |Fixtures[10].1| && Distance(Fixtures[10].0, Fixtures[10].1) == 2
  {
    var a, b := Fixtures[10].0, Fixtures[10].1;
    assert a == "ACGTGTCG" + "TGTCGACG" + "TGTCGT-";
    assert b == "ACGTGTCG" + "TTTCGACG" + "AGTCGTA";
    HeadPiece();
    MiddlePiece();
    assert Distance("TGTCGT-", "AGTCGTA") == 1;
    DistanceAppend("ACGTGTCG", "TGTCGACG", "ACGTGTCG", "TTTCGACG");
    DistanceAppend("ACGTGTCG" + "TGTCGACG", "TGTCGT-", "ACGTGTCG" + "TTTCGACG", "AGTCGTA");
  }

  lemma Fixture11()
    ensures |Fixtures[11].0| == |Fixtures[11].1| && Distance(Fixtures[11].0, Fixtures[11].1) == 2
  {
    var a, b := Fixtures[11].0, Fixtures[11].1;
    assert a == "ACGTGTCG" + "TGTCGACG" + "TGTCG---" + "-------";
    assert b == "ACGTGTCG" + "TTTCGACG" + "AGTCGGGG" + "-------";
    HeadPiece();
    MiddlePiece();
    GapPiece();
    DistanceAppend("ACGTGTCG", "TGTCGACG", "ACGTGTCG", "TTTCGACG");
    DistanceAppend("ACGTGTCG" + "TGTCGACG", "TGTCG---", "ACGTGTCG" + "TTTCGACG", "AGTCGGGG");
    assert Distance("-------", "-------") == 0;
    DistanceAppend("ACGTGTCG" + "TGTCGACG" + "TGTCG---", "-------", "ACGTGTCG" + "TTTCGACG" + "AGTCGGGG", "-------");
  }

  lemma Fixture12()
    ensures |Fixtures[12].0| == |Fixtures[12].1| && Distance(Fixtures[12].0, Fixtures[12].1) == 2
  {
    var a, b := Fixtures[12].0, Fixtures[12].1;
    assert a == "ACGTGTCG" + "TGTCGACG" + "TGTCG---" + "-------A";
    assert b == "ACGTGTCG" + "TTTCGACG" + "AGTCGGGG" + "-------A";
    HeadPiece();
    MiddlePiece();
    GapPiece();
    DistanceAppend("ACGTGTCG", "TGTCGACG", "ACGTGTCG", "TTTCGACG");
    DistanceAppend("ACGTGTCG" + "TGTCGACG", "TGTCG---", "ACGTGTCG" + "TTTCGACG", "AGTCGGGG");
    assert Distance("-------A", "-------A") == 0;
    DistanceAppend("ACGTGTCG" + "TGTCGACG" + "TGTCG---", "-------A", "ACGTGTCG" + "TTTCGACG" + "AGTCGGGG", "-------A");
  }

  lemma Fixture13()
    ensures |Fixtures[13].0| == |Fixtures[13].1| && Distance(Fixtures[13].0, Fixtures[13].1) == 2
  {
    var a, b := Fixtures[13].0, Fixtures[13].1;
    assert a == "ACGTGTCG" + "TGTCGACG" + "TGTCG---" + "-------A" + "G";
    assert b == "ACGTGTCG" + "TTTCGACG" + "AGTCGGGG" + "-------A" + "G";
    HeadPiece();
    MiddlePiece();
    GapPiece();
    DistanceAppend("ACGTGTCG", "TGTCGACG", "ACGTGTCG", "TTTCGACG");
    DistanceAppend("ACGTGTCG" + "TGTCGACG", "TGTCG---", "ACGTGTCG" + "TTTCGACG", "AGTCGGGG");
    assert Distance("-------A", "-------A") == 0;
    DistanceAppend("ACGTGTCG" + "TGTCGACG" + "TGTCG---", "-------A", "ACGTGTCG" + "TTTCGACG" + "AGTCGGGG", "-------A");
    assert Distance("G", "G") == 0;
    DistanceAppend("ACGTGTCG" + "TGTCGACG" + "TGTCG---" + "-------A", "G", "ACGTGTCG" + "TTTCGACG" + "AGTCGGGG" + "-------A", "G");
  }

  lemma BlockAgainstItself()
    ensures |Block| == 24 && Distance(Block, Block) == 0
  {
    assert Block == "ACGTGTCG" + "TGTCGACG" + "TGTCG---";
    HeadPiece();
    MiddlePiece();
    GapPiece();
    DistanceAppend("ACGTGTCG", "TGTCGACG", "ACGTGTCG", "TGTCGACG");
    DistanceAppend("ACGTGTCG" + "TGTCGACG", "TGTCG---", "ACGTGTCG" + "TGTCGACG", "TGTCG---");
  }

  lemma VariedAgainstBlock()
    ensures |Varied| == 24 && Distance(Varied, Block) == 2 && Distance(Block, Varied) == 2
  {
    assert Block == "ACGTGTCG" + "TGTCGACG" + "TGTCG---";
    assert Varied == "ACGTGTCG" + "TTTCGACG" + "AGTCGGGG";
    HeadPiece();
    MiddlePiece();
    GapPiece();
    DistanceAppend("ACGTGTCG", "TGTCGACG", "ACGTGTCG", "TTTCGACG");
    DistanceAppend("ACGTGTCG" + "TGTCGACG", "TGTCG---", "ACGTGTCG" + "TTTCGACG", "AGTCGGGG");
    DistanceSymmetric(Block, Varied);
  }

  lemma Fixture14()
    ensures |Fixtures[14].0| == |Fixtures[14].1| && Distance(Fixtures[14].0, Fixtures[14].1) == 2
  {
    BlockAgainstItself();
    VariedAgainstBlock();
    DistanceAppend(Block + Block, Block, Varied + Block, Block);
    DistanceAppend(Block, Block, Varied, Block);
  }

  /** Every fixture pair yields a two-row matrix with 2 off the diagonal
      in both orders and 0 on it. */
  lemma FixtureAtDistanceTwo(k: nat, maxDist: nat)
    requires k < |Fixtures| && maxDist >= 2
    ensures FromStrings([Fixtures[k].0, Fixtures[k].1], maxDist).Ok?
    ensures var ds := FromStrings([Fixtures[k].0, Fixtures[k].1], maxDist).value;
      && InRange(ds, 0, 1) && InRange(ds, 1, 0)
      && Get(ds, 0, 0) == 0 && Get(ds, 1, 1) == 0
      && Get(ds, 0, 1) == 2 && Get(ds, 1, 0) == 2
  {
    if k == 0 { Fixture0(); }
    else if k == 1 { Fixture1(); }
    else if k == 2 { Fixture2(); }
    else if k == 3 { Fixture3(); }
    else if k == 4 { Fixture4(); }
    else if k == 5 { Fixture5(); }
    else if k == 6 { Fixture6(); }
    else if k == 7 { Fixture7(); }
    else if k == 8 { Fixture8(); }
    else if k == 9 { Fixture9(); }
    else if k == 10 { Fixture10(); }
    else if k == 11 { Fixture11(); }
    else if k == 12 { Fixture12(); }
    else if k == 13 { Fixture13(); }
    else { Fixture14(); }
    PairMatrix(Fixtures[k].0, Fixtures[k].1, maxDist);
  }

  /** An empty list and a list of empty sequences are rejected as empty;
      lists with sequences of differing lengths, an empty one among them,
      are rejected as mismatched. */
  lemma ValidationFailures(maxDist: nat)
    ensures FromStrings([], maxDist) == Err(EmptySequence)
    ensures FromStrings(["", ""], maxDist) == Err(EmptySequence)
    ensures FromStrings(["ACGT", "A"], maxDist) == Err(LengthMismatch)
    ensures FromStrings(["AC", "ACGTCG"], maxDist) == Err(LengthMismatch)
    ensures FromStrings(["ACGT", "ACGT", "ACGT", "A", "ACGT", "ACGT"], maxDist) == Err(LengthMismatch)
    ensures FromStrings(["ACGT", "A-----"], maxDist) == Err(LengthMismatch)
    ensures FromStrings(["ACGT", ""], maxDist) == Err(LengthMismatch)
  {
    assert !SameLength(["ACGT", "A"]) by { assert |["ACGT", "A"][1]| == 1; }
    assert !SameLength(["AC", "ACGTCG"]) by { assert |["AC", "ACGTCG"][1]| == 6; }
    var six := ["ACGT", "ACGT", "ACGT", "A", "ACGT", "ACGT"];
    assert !SameLength(six) by { assert |six[3]| == 1; }
    assert !SameLength(["ACGT", "A-----"]) by { assert |["ACGT", "A-----"][1]| == 6; }
    assert !SameLength(["ACGT", ""]) by { assert |["ACGT", ""][1]| == 0; }
  }

  /** Two sequences one longer than the accumulator's maximum that differ
      at every position are rejected with the overflow failure. */
  lemma OverflowRejected(maxDist: nat)
    ensures FromStrings([seq(maxDist + 1, _ => 'A'), seq(maxDist + 1, _ => 'T')], maxDist)
      == Err(DistanceOverflow)
  {
    var data := [seq(maxDist + 1, _ => 'A'), seq(maxDist + 1, _ => 'T')];
    DistinctRunsDistance('A', 'T', maxDist + 1);
    assert !FitsAccumulator(data, maxDist) by {
      assert Distance(data[0], data[1]) == maxDist + 1;
    }
  }
}
