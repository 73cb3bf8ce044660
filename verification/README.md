# Hamming distance matrices of aligned nucleotide sequences

This project models the core of a small C++ library, `hamming`, in Dafny.
The library reads aligned nucleotide sequences and computes the Hamming
distance between every pair of them. It stores the result as the strictly
lower triangle of a symmetric matrix in one flat vector.

The library has three entry points:

- from a list of strings;
- from a FASTA file, which it splits into records;
- from a comma-separated matrix file that `DataSet::dump` wrote earlier.

The model proves the following:

- The mask encoding of the symbols realises the match table that the
  library's tests pin down.
- The distance counts mismatching positions.
- Construction validates its input before computing any distance, in an
  order consistent with the tests. It fills every pair, or fails with the
  overflow error.
- The flat index `j*(j-1)/2 + i` is a bijection from the strictly lower
  pairs onto the store.
- Writing a matrix with `dump` and reading it back with the file
  constructor gives the same matrix, and for a matrix built from strings
  the reloaded entries are the strings' distances. The lower-triangular
  layout also reads back through the same constructor, which stands in
  for `from_lower_triangular`.
- The stream loops of `from_fasta`, with the first line skipped, the
  `line[0] != '>'` test and the end-of-file check, yield the records of a
  line-based reference definition. They return at most `n` records, and
  all records when `n` is 0. Writing records as FASTA text and reading
  them back gives the records. The model's outer loop also stops once the
  stream has failed. On every file that opens, this reads the same records
  as the end-of-file check alone. On a file that cannot be opened, it
  avoids the behaviour described under Findings.
- Removing duplicates keeps one row per distinct record, in order of first
  occurrence. Every record is mapped to the row of its first occurrence,
  and the rows stand for the records in the matrix.
- The test suite's scenarios hold of the model: the symbol table, the
  fixtures at distance 2, the validation and overflow failures, and the
  three FASTA files.

Modules, one per file:

- `Errors`: the failure kinds and their messages, plus `Result`.
- `Encoding`: the symbol masks and matching.
- `Kernel`: distance, the overflow guard and validation.
- `Triangle`: the flat index.
- `DataSets`: the matrix and construction from strings.
- `Streams`: `std::getline` over a text.
- `Decimal`: `stream << int` and `std::stoi`.
- `Csv`: `dump` and the file constructor.
- `Reload`: the round trips.
- `Pipeline`: from strings through `dump` to the reloaded matrix.
- `Fasta`: `from_fasta` and duplicate removal.
- `FastaFiles`: `from_fasta` on a file that may fail to open, with the
  outer loop as written and as corrected (see Findings).
- `Scenarios`, `FastaScenarios`: the test suite's cases.

Files are modelled as their text. The library writes a file with
`std::ofstream` and then reads the same file with `std::ifstream`. In the
model it writes the text and then opens a stream over that text.

On two edge cases the model follows the code and its tests:

- `["ACGT", ""]` fails with the length-mismatch error, as the tests expect,
  not the empty-sequence error. The model reports as empty only an empty
  list or an empty first sequence, which is one order consistent with the
  tested lists (see `Kernel.Validate` under Left out).
- A header at the very end of a file opens a record only when a newline
  follows it. Without the newline, `std::getline` sets the end-of-file flag
  while reading the header, and the outer loop stops before opening a
  record. With the newline, the last record is empty.

## Model

| member | source | states |
|---|---|---|
| Encoding.Matches | src/hamming_t.cc:8-71 | two symbols match, by overlapping masks, exactly when the tested table says so: equal letters, or the gap against a letter or itself |
| Encoding.LetterBitsExclusive | src/hamming_t.cc:31-42 | each letter's mask is one bit that no other letter shares, so distinct letters never match |
| Encoding.GapAndOthers | src/hamming_t.cc:23-29 | the gap's mask covers every mask, and every character outside A, C, G, T and '-' has the empty mask |
| Encoding.MatchesSymmetric | src/hamming_t.cc:23-29 | matching does not depend on argument order |
| Encoding.MatchesSelf | src/hamming_t.cc:16-21 | a character matches itself exactly when it is a letter or the gap, so N, '*', lower case and the like mismatch even themselves |
| Errors.MessagesDistinguish | src/hamming_t.cc:197 | the failures carry pairwise different messages, so a message identifies its failure |
| Scenarios.TestedSymbolTable | src/hamming_t.cc:8-71 | the match table agrees with every tested character pair: valid with itself, valid with the gap in both orders, distinct valid pairs, valid against invalid, invalid pairs and invalid against the gap |
| Scenarios.SymbolDistance | src/hamming_t.cc:11-14 | the one-character matrix has distance 0 at (0,1) and (1,0) when the symbols match and 1 otherwise |
| Kernel.MismatchesFromCounts | src/hamming_t.cc:73-97 | the recursive count from position k equals the size of the set of mismatching positions at or after k |
| Kernel.DistanceCountsMismatches | src/hamming_t.cc:73-97 | the distance is the number of positions whose symbols do not match |
| Kernel.DistanceSymmetric | src/hamming_t.cc:93-94 | the distance of a to b equals the distance of b to a |
| Kernel.SelfDistance | src/hamming_t.cc:16-21 | a sequence is at distance 0 from itself exactly when all of its symbols are letters or gaps; a valid character against itself gives 0 here, and an invalid one against itself gives 1 (src/hamming_t.cc lines 55-63) |
| Kernel.DistanceAppend | src/hamming_t.cc:83-89 | the distance of two aligned concatenations is the sum of the distances of the parts |
| Kernel.DistinctRunsDistance | src/hamming_t.cc:244-245 | runs of two distinct letters of any length differ at every position |
| Kernel.AccumulateDistance | src/hamming_t.cc:240-248 | the position-by-position count succeeds exactly when the distance fits the accumulator maximum, and then returns the distance; otherwise it fails with the overflow error |
| Kernel.Validate | src/hamming_t.cc:193-214 | in an order consistent with the tested lists, no sequences or an empty first one give the empty-sequence failure; otherwise any length different from the first gives the length failure; it passes exactly when all lengths are equal and nonzero |
| Triangle.TriFormula | src/hamming.cc:67-70 | the number of strictly lower cells of an n-by-n matrix is n*(n-1)/2 |
| Triangle.Index | src/hamming.cc:67-70 | the slot of (i, j), i < j, lies in row j's range [Tri(j), Tri(j+1)) |
| Triangle.IndexInBounds | src/hamming.cc:67-70 | every strictly lower pair of an n-by-n matrix has a slot below n*(n-1)/2 |
| Triangle.IndexInjective | src/hamming.cc:67-70 | distinct pairs never share a slot |
| Triangle.IndexOnto | src/hamming.cc:67-70 | every slot below n*(n-1)/2 belongs to a pair of an n-by-n matrix, so the index is a bijection onto the store |
| Triangle.UnindexIndex | src/hamming.cc:67-70 | recovering the pair from its slot gives back the pair |
| DataSets.Get | src/hamming.cc:63-73 | entry (i, j) is 0 on the diagonal, whatever the store holds, and otherwise the slot of the unordered pair |
| DataSets.GetSymmetric | src/hamming.cc:67-70 | entry (i, j) equals entry (j, i) |
| DataSets.GetDiagonal | src/hamming.cc:71-72 | two stores of any contents agree, with 0, on the diagonal |
| DataSets.CoveredInRange | src/hamming.cc:63-73 | in a store with a slot for every pair, every lookup inside the matrix stays inside the store |
| DataSets.FillRow | src/hamming.cc:19 | row j succeeds exactly when every earlier sequence is within the accumulator maximum of sequence j; it then holds those distances in order, and fails only with the overflow error |
| DataSets.FillSucceeds | src/hamming.cc:19 | filling the store succeeds exactly when no pair among the first rows exceeds the accumulator maximum |
| DataSets.FillEntries | src/hamming.cc:19 | a filled store holds the distance of sequences i and j at slot j*(j-1)/2 + i |
| DataSets.FromStrings | src/hamming.cc:15-20 | validation failures first, then the overflow failure exactly when some pair does not fit; on success nsamples is the number of sequences and entry (i, j) is the distance of sequences i and j, 0 on the diagonal |
| Decimal.ValueShowNat | src/hamming.cc:55 | reading the digits written for a natural number gives the number back |
| Decimal.Stoi | src/hamming.cc:42 | a conversion that succeeds yields a value within 32-bit int; any failure is the malformed-number error |
| Decimal.StoiShow | src/hamming.cc:42 | a 32-bit value written by `stream << v`, after any spaces, converts back to v |
| Streams.GetLine | src/hamming.cc:35 | extraction from a good stream takes the text before the delimiter and consumes the delimiter, or takes the rest and sets end-of-file; a failed stream or an empty input fails and leaves the flags consistent |
| Streams.GetLineSplits | src/hamming.cc:35 | one extraction yields the first line of the remaining text and leaves the remaining lines, and reaches end-of-file exactly at an unterminated last line |
| Streams.ReadLinesSplits | src/hamming.cc:35 | the `while (getline)` loop yields exactly the lines of the text |
| Streams.SplitTerminated | src/hamming.cc:59 | lines written each followed by a newline split back into the same lines |
| Streams.LinesAndNewlines | src/hamming.cc:27-28 | the number of lines is the number of newlines, plus one for an unterminated last line |
| Csv.RowValues | src/hamming.cc:53-55 | row i of the written matrix has one entry per sample, each readable by `operator[]`, and 0 in its own column i |
| Csv.RowTextJoins | src/hamming.cc:53-58 | the inner loop of `dump` writes the row's values separated by ", ", with no separator after the last |
| Csv.DumpLines | src/hamming.cc:48-61 | `dump` writes one line per sample, each ended by a newline, holding that row of the matrix |
| Csv.ReadFieldsSplit | src/hamming.cc:39-43 | the field loop behaves as extracting all k fields, then converting them in order and stopping at the first that is not a number |
| Csv.Store | src/hamming.cc:42 | writing values from slot i on changes exactly those slots, and leaves the length unchanged |
| Csv.StoreRowsLayout | src/hamming.cc:33-45 | the rows are written one after another from slot Tri(current), and nothing outside their range changes |
| Csv.FlattenEntry | src/hamming.cc:42 | value j of line k lands at slot k*(k-1)/2 + j |
| Csv.Load | src/hamming.cc:22-46 | nsamples is the number of newlines; the store has nsamples*(nsamples+1)/2 cells; loading succeeds exactly when every line parses; entry (i, j) below the diagonal is field j of line i; a failure is one that a line's parse produced |
| Csv.FromCsv | src/hamming.cc:22-46 | the only way to fail reading a matrix file is a field that is not a number |
| Csv.StoredEntries | src/hamming.cc:29-45 | the rows written into the zeroed store of n*(n+1)/2 cells give entry (i, j) = field j of line i for every j < i < n, within the store |
| Reload.FieldsOfJoin | src/hamming.cc:41 | reading k fields of a ", "-joined line gives its first k texts, each after the first keeping its leading blank |
| Reload.ConvertPadded | src/hamming.cc:42 | the first k of those texts convert back to the first k written values |
| Reload.ReadJoined | src/hamming.cc:37-43 | reading the first k fields of a written row gives its first k values |
| Reload.Matrix | src/hamming.cc:63-73 | the full matrix that `operator[]` reads is square, symmetric and 0 on its diagonal, whatever the store holds |
| Reload.RowsSymmetric | src/hamming.cc:63-73 | entry j of row i equals entry i of row j for every pair of samples |
| Reload.SameBelowDiagonal | src/hamming.cc:63-73 | two matrices of the same size that agree below the diagonal are equal as full matrices |
| Reload.DumpRoundTrip | src/hamming_t.cc:216-235 | reloading the text `dump` writes succeeds, with the same nsamples and the same full matrix |
| Pipeline.FromStringsInt32 | src/hamming.cc:15-20 | a matrix built from strings with an accumulator no wider than `int` stores only values `std::stoi` can read back |
| Pipeline.StringsRoundTrip | src/hamming_t.cc:216-235 | strings turned into a matrix, dumped and reloaded give one sample per string, 0 on the diagonal and the distance of the two strings elsewhere |
| Reload.LowerTriangularRoundTrip | src/hamming_t.cc:251-274 | reloading the lower-triangular layout succeeds, with the same nsamples and the same full matrix |
| Scenarios.PairMatrix | src/hamming_t.cc:90-96 | the matrix of two sequences within the accumulator has 0 on the diagonal and their distance at (0,1) and (1,0) |
| Scenarios.FixtureAtDistanceTwo | src/hamming_t.cc:73-97 | every fixture pair of the test gives 0 on the diagonal and 2 at (0,1) and (1,0) |
| Scenarios.ValidationFailures | src/hamming_t.cc:193-214 | each tested invalid list fails with the tested error: the empty list and two empty sequences as empty, the rest as a length mismatch |
| Scenarios.OverflowRejected | src/hamming_t.cc:240-248 | two sequences, one longer than the accumulator maximum and different everywhere, fail with the overflow error |
| Fasta.ReadRecord | src/hamming.cc:100-105 | the inner loop keeps the stream consistent and never grows the input, and from a good stream either consumes a line or reaches end-of-file |
| Fasta.Take | src/hamming.cc:98 | exactly the first m records when there are more than m, and all of them otherwise |
| Fasta.ReadRecordSplits | src/hamming.cc:102-105 | the inner loop returns the open record of the reference definition and leaves the stream at the records after it |
| Fasta.ReadRecordsSplits | src/hamming.cc:98-107 | the outer loop returns every pending record when n is 0, and otherwise the first n - count of them |
| Fasta.FirstLineSkipped | src/hamming.cc:97 | after the first line is skipped, the pending records are exactly the records of the text |
| Fasta.FromFastaRecords | src/hamming.cc:84-107 | the records `from_fasta` reads from a text are the reference records, cut to n when n > 0 |
| Fasta.FromFastaBounded | src/hamming.cc:98 | with n > 0 at most n records are read |
| Fasta.GroupsOfBody | src/hamming.cc:102-105 | a run of data lines joins the record it continues |
| Fasta.GroupsOfFastaLines | src/hamming.cc:97-107 | the lines after a first header, with each record introduced by a header, group into the joined records |
| Fasta.FastaRoundTrip | src/hamming_t.cc:103-108 | FASTA text written as headers and data lines, every line newline-terminated, reads back as the joined data lines of each record |
| Fasta.FromFasta | src/hamming.cc:84-109 | the matrix built from a FASTA text is the matrix of its reference records, cut to n; with n > 0 it has at most n samples |
| Fasta.FirstIndex | src/hamming_t.cc:143 | the position of the first occurrence: it holds the value and no earlier position does |
| Fasta.DedupDescribes | src/hamming_t.cc:143-149 | every record is the row its index names, no two rows are equal, and every row is a record |
| Fasta.DedupFirst | src/hamming_t.cc:143 | the first record is the first row |
| Fasta.DedupInOrder | src/hamming_t.cc:143 | the rows are in order of first occurrence, and each record maps to the row of its first occurrence |
| Fasta.UniqueMatrix | src/hamming_t.cc:148-158 | a matrix of the distinct rows (one row each, 0 on the diagonal, their distances elsewhere), with the record indices, gives for any two records 0 when they are equal and their distance otherwise |
| Fasta.FromFastaUnique | src/hamming_t.cc:125-162 | with duplicates removed: empty failure exactly when there are no records or the first is empty; success exactly when the distinct rows build a matrix; then one sample per distinct record, indices by first occurrence, and entries standing for the records |
| FastaFiles.OpenFile | src/hamming.cc:93 | a file that opens gives a good stream over its text; one that cannot be opened gives a stream whose failure flag is set and whose end-of-file flag is clear |
| FastaFiles.ReadRecordsAsWritten | src/hamming.cc:98-107 | the outer loop as written, guarded by the end-of-file flag alone, reads at most limit - count records |
| FastaFiles.StuckLoop | src/hamming.cc:98-107 | on a stream that failed before reaching the end, every remaining round of the loop as written adds an empty record |
| FastaFiles.MissingFileAsWritten | src/hamming.cc:88-108 | as written, a file that cannot be opened reads as n empty records, and when n is 0 as empty records up to the SIZE_MAX limit (vector capacity ignored); with n > 0 the matrix then fails with the empty-sequence error |
| FastaFiles.MissingFileRecords | src/hamming.cc:98 | with the loop also stopping on failure, a file that cannot be opened reads as no records for every n, and the matrix fails at once with the empty-sequence error |
| FastaFiles.PresentFileRecords | src/hamming.cc:84-107 | a file that opens reads as the reference records of its text, cut to n when n > 0 |
| FastaFiles.AsWrittenOnOpenFile | src/hamming.cc:98 | on a stream where failure comes only with the end of input, the loop as written and the corrected loop read the same records |
| FastaFiles.RecordsBound | src/hamming.cc:89 | a text has no more records than characters, so the SIZE_MAX limit never cuts the records of a file a size_t can measure |
| FastaFiles.AsWrittenAgrees | src/hamming.cc:84-107 | on every file that opens and that a size_t can measure, the loop as written and the corrected loop read the same records for every n |
| FastaScenarios.TwoRecordFile | src/hamming_t.cc:164-191 | a file of two records of any number of data lines each gives the matrix of the two joined records |
| FastaScenarios.TwoRecordUnique | src/hamming_t.cc:178-188 | read with duplicates removed, a file of two different records gives two rows, indices 0 and 1, and the same matrix |
| FastaScenarios.SingleLineFile | src/hamming_t.cc:99-123 | the tested single-line file gives 0 on the diagonal and 2 off it, for every tested limit, both with duplicates kept and with duplicates removed (then with indices 0 and 1) |
| FastaScenarios.MultiLineFile | src/hamming_t.cc:164-191 | the tested multi-line file gives 0 on the diagonal and 2 off it, both with duplicates kept and with duplicates removed (then with indices 0 and 1) |
| FastaScenarios.DedupPattern | src/hamming_t.cc:143 | three distinct records in the pattern a, b, b, b, a, c deduplicate to rows a, b, c with indices 0, 1, 1, 1, 0, 2 |
| FastaScenarios.PatternFile | src/hamming_t.cc:125-149 | a file of any three distinct equal-length records in that pattern reads, with duplicates removed, as three samples with those indices |
| FastaScenarios.DuplicatesFile | src/hamming_t.cc:125-162 | the tested file with duplicates gives three samples, indices 0, 1, 1, 1, 0, 2, and the tested entries 0, 2, 1 / 2, 0, 2 / 1, 2, 0 |

## Left out

- The OpenMP parallel fill is concurrency. The model fills the store
  sequentially, row after row.
- The AVX-512 kernel `distance_avx512` is left out. The header
  include/hamming/distance_avx512.hh only declares it, over blocks of
  packed masks; the model keeps to the per-position definition of the
  distance.
- seqan.cc is a demonstration of a third-party alignment library and is
  not part of this model.
- hamming_impl.hh, which holds the mask table, the distance kernel,
  `validate_data` and `distances`, is not part of this model. The mask
  values, the validation order and the overflow behaviour are taken from
  the tests.
- Kernel.Validate: `validate_data` is defined in hamming_impl.hh, and the
  tests at src/hamming_t.cc:193-214 fix its outcome on seven lists only.
  The inputs they leave open include a list whose first sequence is empty
  and a later one is not, such as `["", "A"]`, and a single empty
  sequence `[""]`. The model reports both as empty; a validation that
  compared lengths first would report `["", "A"]` as a length mismatch.
- Files are modelled as their text, which is a parameter. Opening, flushing
  and removing files, and `std::tmpnam`, are left out. A FASTA file that
  cannot be opened is modelled (see Findings). A matrix file that cannot be
  opened is not: it reads as an empty text.
- The `include_x` flag of the four-argument `from_fasta` in the tests is
  left out. `from_fasta` in src/hamming.cc takes no `include_x` argument,
  and no tested outcome depends on it.
- Vector capacity is left out. `data.reserve(n)` and `data.emplace_back()`
  in `from_fasta` throw `std::length_error` or `std::bad_alloc` once the
  vector cannot grow; the model's sequences grow without bound, so those
  exceptions are not modelled.
- `DataSet::result` is a `std::vector<int>` (include/hamming/hamming.hh:19).
  The model's store is an unbounded `seq<int>`; the 32-bit width enters
  only through `IsInt32` in `std::stoi` and the `maxDist <= IntMax`
  hypothesis of `Pipeline.FromStringsInt32` and `Pipeline.StringsRoundTrip`.
- `std::size_t` arithmetic is unbounded in the model. The `SIZE_MAX` limit
  that `n == 0` stands for is modelled as no limit.
- Kernel.AccumulateDistance: the accumulator type `DistIntType` is defined
  in hamming_impl.hh, which is not part of this model. Its largest value is
  a parameter, `maxDist`, and the model does not wrap around.
- DataSets.FromStrings: the overflow check is modelled as a comparison of
  each pair's true distance with `maxDist`. Where the kernel of hamming_impl.hh stops
  counting early is not modelled.
- Fasta.FromFastaUnique: duplicate removal, `sequence_indices` and the
  lower-triangular writer are used by the tests but not declared in
  include/hamming/hamming.hh or defined in src/hamming.cc.
  They are modelled only as far as the tests pin them down. The model
  assumes the record limit `n` applies to the records read, before
  duplicates are removed.
- Reload.LowerTriangularRoundTrip: the test reads the lower-triangular
  file back with `from_lower_triangular`, which src/hamming.cc does not
  define. That reader is not modelled; the file constructor
  `DataSet(filename)` of src/hamming.cc:22-46 stands in for it.
- FastaFiles.MissingFileAsWritten: vector capacity is ignored, so with
  n == 0 the model yields SIZE_MAX empty records, where the library throws
  once `emplace_back` cannot grow the vector.
- Csv.FromCsv: a field that `std::stoi` rejects is reported as a failure of
  the whole load, in place of the exception `std::stoi` raises.
- Decimal.Stoi: locale-dependent white space and digits are left out. Only
  the C locale is modelled.

## Findings

| source | as written | input that shows it | evidently intended | confidence | as-written member | corrected member |
|---|---|---|---|---|---|---|
| src/hamming.cc:98 | the outer loop of `from_fasta` stops only when the end-of-file flag is set | a file name that cannot be opened: `std::ifstream` sets the failure flag and leaves the end-of-file flag clear, so every round reads nothing and adds an empty record. With n > 0 the call fails with "Error: Empty sequence" after n rounds; with n == 0 the limit is SIZE_MAX, so it adds empty records until the vector cannot grow and `emplace_back` throws | the loop also stops once the stream has failed, so a missing file reads as no records | not executed; relies on the standard library setting only the failure flag when opening fails | FastaFiles.MissingFileAsWritten | FastaFiles.MissingFileRecords |
