# VCF archaic/modern merge-join, modelled in Dafny

The repository merges an archaic-genome variant table (VCF) with a modern
population's VCF. Each file object first strips its `##` comment lines down
to the `#CHROM` header line. It then resolves the columns `#CHROM`, `POS`,
`REF`, `ALT` and the first sample column (the one after `FORMAT`). The modern
object also collects the set of its position strings, called the pool.

The merge is `ARCHAICVCF.__add__`. It writes an output header, then walks the
archaic rows with a cursor `seek_pointer` into the modern rows that never
moves back. A diploid genotype token `a/b` becomes the decimal sum of its
characters 0 and 2. For each archaic row the merge writes one of two things:

- a private row: a non-zero archaic call at a position absent from the pool,
  padded with one `"0"` per modern sample;
- joined rows: one for each modern record at the same position whose REF and
  ALT are compatible, carrying the modern ALT and the modern sample counts.
  That is the evident intent. `VCF_FILE.py` joins only the records it reaches
  from its cursor, and it moves that cursor past at most one smaller record
  per archaic row, so on sorted files it can miss a join (see "## Findings").

The repository has three versions of this code, and each is a module here:

| module | source | what it is |
|---|---|---|
| `VcfCommon` (`common.dfy`) | shared | rows, digit parsing, genotype encoders, header resolution, pool, comment stripping |
| `VcfFile` (`vcf_file.dfy`) | `VCF_FILE.py` | the version the driver imports; the cursor moves at most one record per archaic row |
| `VcfBuffered` (`vcf_buffered.dfy`) | `VCF_FILE_Python_IOBUFFER.py` | the buffered reader; see the differences below |
| `VcfRe` (`vcf_re.dfy`) | `VCF_FILE_re.py` | whole-file reading with the buffered merge, whose row writes raise |

`VcfBuffered` differs from `VcfFile` in these ways:
- its reader keeps the non-`##` lines up to and including the header line and stops there (VCF_FILE_Python_IOBUFFER.py:19-37);
- its pool holds the resolved POS column of every data row (line 86), where `VCF_FILE.py:89` takes field 1;
- its merge compares the chromosome cell of both files' first data rows, read with the archaic chromosome column, and exits when they differ (lines 133-141);
- every output row carries the first archaic data row's chromosome (line 137), not the row's own;
- it skips sites whose REF or ALT is not a single base (lines 154-155);
- it parses the position with `int()` (line 151) and looks that integer up in the pool of strings (line 162), which never finds it;
- it writes the position as `str(int(pos))` (line 163);
- its scan moves the cursor past every smaller modern position (lines 174-176);
- its merge has no `try`/`except`, so an exception ends the program rather than returning `False`; the model records both as a failed outcome.

Modelling choices:
- Input lines are already split on tabs (`seq<string>`). "Starts with" looks at the first field.
- Python's `int()` on a position or allele is `ParseNat`, a non-empty run of ASCII digits. `str()` of a count is `Decimal`. `ParseDecimal` proves that the two round-trip.
- The two Python value types that can meet in the pool lookup are modelled as `PyValue`, and both lookups go through `PyIn`. In `VCF_FILE.py` the position stays a string (`PyStr`, in `VcfFile.IsPrivate`). The other two versions look up an `int` (`PyInt`, in `VcfBuffered.InPool`) in a set of strings, which never finds it.
- Every exception and every `exit(1)` becomes a failure:
  - in the constructors, a `Result` error;
  - in the merge, a state whose `ok` is false, keeping the rows written before the failure.

  The merge in `VCF_FILE.py` returns `False` on the same failures; its constructors exit or raise instead.
- Each merge is written twice:
  - as specification functions (`Scan`, `Step`, `Run`, `Outcome`) that follow the source's branches;
  - as the methods the source runs (`ScanModern`, `MergeRow`, `Merge`) with `seek_pointer` and the output as loop variables.

  Each method's `ensures` ties it to the matching function. The lemmas state the properties over the functions.
- The file objects are never changed after construction, so they are immutable datatypes.

Behaviour of the code worth noting, which the model follows:
- An archaic genotype token that starts with a digit but is shorter than three characters raises `IndexError`, which `except ValueError` does not catch, so it ends the merge instead of encoding as `0` (`EncodeArchaic`).
- Modern sample genotypes have no `0` fallback: a token that is not `digit ? digit` raises (`EncodeModern`).
- `VCF_FILE.py` moves the cursor past at most one smaller modern record per archaic row, and only when the archaic position does not exceed the last modern position. So once the cursor lags behind, a later archaic site whose compatible modern record lies two or more rows ahead is not joined, even on sorted files (`VcfFile.LaggingCursorMissesJoin`).
- `VCF_FILE.py` has no chromosome check and no single-base filter; only the other two versions have them.

## Model

| member | source | states |
|---|---|---|
| `VcfCommon.ParseNat` | VCF_FILE.py:181 | `int()` of a field succeeds exactly on a non-empty string of digits |
| `VcfCommon.Decimal` | VCF_FILE.py:168 | `str()` of a count is a non-empty string of digits |
| `VcfCommon.ParseDecimal` | VCF_FILE_Python_IOBUFFER.py:163 | a position written with `str()` parses back to the same number |
| `VcfCommon.EncodeArchaic` | VCF_FILE.py:167-171 | raises exactly on an empty token or a digit-led token shorter than 3; a diploid token gives the decimal string of the sum of its alleles, which `int()` reads back as that sum; any other token gives "0" |
| `VcfCommon.ArchaicZero` | VCF_FILE.py:167-173 | the archaic count is "0" exactly when the token is not diploid or its alleles sum to 0 |
| `VcfCommon.EncodeModern` | VCF_FILE.py:192 | a modern token encodes exactly when it is diploid, to the decimal string of the sum of its alleles, which `int()` reads back as that sum |
| `VcfCommon.EncodeSamples` | VCF_FILE.py:192-193 | the sample list encodes exactly when every token is diploid, element by element, keeping the length |
| `VcfCommon.Resolve` | VCF_FILE.py:62-72 | succeeds exactly when `#CHROM`, `POS`, `REF`, `ALT` and `FORMAT` are all present; each index is the first occurrence, the sample index one past `FORMAT`; otherwise it fails naming the first missing column in lookup order |
| `VcfCommon.CollectPool` | VCF_FILE.py:85-90 | succeeds exactly when every data row has the column; a string is in the pool exactly when some data row holds it there |
| `VcfCommon.StripComments` | VCF_FILE.py:29-37 | the loop returns the lines from the `##`-count onward at the first header line, or nothing |
| `VcfCommon.StrippedKeepsTail` | VCF_FILE_re.py:14-41 | nothing is returned (the loop's `else` exits) exactly when there is no header line; otherwise the result ends with the header line and every line after it |
| `VcfCommon.StrippedFromHeader` | VCF_FILE.py:29-37 | when only `##` lines precede the first header line, the result is exactly that line and every line after it |
| `VcfCommon.ReadRecord` | VCF_FILE.py:180-183 | a modern record reads exactly when POS, REF and ALT exist and POS parses |
| `VcfFile.OpenModern` | VCF_FILE.py:42-90 | the object is built exactly when there is a header line, every column resolves and every data row has a field 1; no header line, a missing column and a short data row each fail with their own error; on success the text is the stripped text, the index resolves its first line, and the pool is field 1 of every data row |
| `VcfFile.OpenArchaic` | VCF_FILE.py:102-131 | the object is built exactly when there is a header line, every column resolves and the header has a cell after `FORMAT`; a missing cell there gives `NoSampleColumn` exactly; on success the archaic name is that cell |
| `VcfFile.ModernGet` | VCF_FILE.py:75-83 | exactly the keys chrom/pos/ref/alt/sample_index are found, with their columns; any other key fails |
| `VcfFile.ArchaicGet` | VCF_FILE.py:134-142 | exactly chrom/pos/ref/alt/archaic_index/archaic_name are found, each with its column and the name being the sample cell; any other key fails |
| `VcfFile.SampleCount` | VCF_FILE.py:98-99 | the header length minus the sample index |
| `VcfFile.GetChrom` | VCF_FILE.py:145-146 | the chromosome of the first data row, failing exactly when that cell is missing |
| `VcfFile.ReadSite` | VCF_FILE.py:160-171 | an archaic row reads exactly when its four columns and its sample column exist and its genotype token encodes |
| `VcfFile.ScanModern` | VCF_FILE.py:179-197 | the inner loop does what `Scan` says: success, whether the cursor moves, and the rows written |
| `VcfFile.MergeRow` | VCF_FILE.py:160-197 | one archaic row moves the state as `Step` says |
| `VcfFile.Merge` | VCF_FILE.py:149-200 | the merge returns and writes exactly what `Outcome` says |
| `VcfFile.PrivateSite` | VCF_FILE.py:173-176 | the private branch fires exactly for a diploid call summing above 0 at a position string absent from the pool; it writes one row (site, count, one "0" per modern sample) and leaves the cursor alone |
| `VcfFile.ScanAdvance` | VCF_FILE.py:184-188 | the cursor moves only past a modern record before the archaic position, when that position is at most the last modern one |
| `VcfFile.StepCursor` | VCF_FILE.py:178-188 | one archaic row moves the cursor by 0 or 1, by 1 only through a scan past a smaller record; once the cursor is at the last modern row, a non-private site changes nothing |
| `VcfFile.RunCursor` | VCF_FILE.py:157-188 | the cursor starts at 1, stays between 1 and the last modern row, and grows by at most one per archaic row |
| `VcfFile.CursorMonotone` | VCF_FILE.py:157-159 | over any stretch of archaic rows the cursor never decreases and grows by at most the number of rows |
| `VcfFile.ScanRows` | VCF_FILE.py:185-197 | every row a scan writes is the joined row of a compatible record reached through records at the archaic position only |
| `VcfFile.ScanJoinsRun` | VCF_FILE.py:189-195 | the special case of a run made only of compatible records at the archaic position from the cursor: it is joined record by record, in order |
| `VcfFile.ScanPrefixOfRunJoins` | VCF_FILE.py:179-197 | on every input the rows a scan writes are a prefix of the reference `RunJoins`: the joined rows of the compatible records in the same-position run from the cursor, in file order |
| `VcfFile.ScanJoinsCompatible` | VCF_FILE.py:189-195 | with a readable last position and readable sample tokens in the run, a scan writes all of `RunJoins`, so a compatible record after an incompatible one at the same position (a split multi-allelic site) is joined |
| `VcfFile.MergeSucceeds` | VCF_FILE.py:196-200 | with the opening readable and every row well formed, the merge returns True and its output starts with the header |
| `VcfFile.RunKeepsHeader` | VCF_FILE.py:154-155 | the output always starts with the header row |
| `VcfFile.NothingWrittenWithoutChrom` | VCF_FILE.py:149-155 | the merge writes nothing, not even the header, exactly when the first data row's chromosome or the modern header cannot be read; a missing chromosome makes the merge fail |
| `VcfFile.LastRecordDropped` | VCF_FILE.py:178 | as written, with the cursor on the last modern row, a matching compatible record there is not written |
| `VcfFile.LaggingCursorMissesJoin` | VCF_FILE.py:185-188 | as written, on sorted modern rows 100, 200, 300 and archaic rows 100, 200 (all `G C`), the record at 200 would join, yet the merge succeeds writing only the header and the join at 100 |
| `VcfFile.IntendedJoinsAtCursor` | VCF_FILE.py:178-195 | with the guard `seek < len(modern)`, a compatible record at the cursor and the site's position is written, the last row included |
| `VcfBuffered.ReadHeader` | VCF_FILE_Python_IOBUFFER.py:9-38 | the reading loop keeps the non-`##` lines up to and including the first header line |
| `VcfBuffered.HeaderLinesClean` | VCF_FILE_Python_IOBUFFER.py:19-26 | the lines kept contain no `##` line, and a header line only in last place |
| `VcfBuffered.HeaderLinesStop` | VCF_FILE_Python_IOBUFFER.py:28-37 | the first header line is the last line kept; when only `##` lines precede it, it is the only line kept |
| `VcfBuffered.OpenModern` | VCF_FILE_Python_IOBUFFER.py:53-87 | the object is built exactly when some line is kept, its columns resolve and every later kept line has the POS cell; a short line fails with `ShortRow` exactly; on success the index resolves the first line and the pool is the POS column of every later line |
| `VcfBuffered.OpenArchaic` | VCF_FILE_Python_IOBUFFER.py:99-121 | the object is built exactly when some line is kept and its columns resolve; otherwise it fails with the reason; on success the index resolves the first line |
| `VcfBuffered.ModernGet` | VCF_FILE_Python_IOBUFFER.py:91-96 | exactly chrom/pos/ref/alt/sample are found, with their columns; any other key fails (the same map as VCF_FILE_re.py:59-91) |
| `VcfBuffered.ArchaicGet` | VCF_FILE_Python_IOBUFFER.py:124-129 | exactly chrom/pos/ref/alt/archaic are found, with their columns; any other key fails (the same map as VCF_FILE_re.py:102-124) |
| `VcfBuffered.ReadSite` | VCF_FILE_Python_IOBUFFER.py:150-153 | an archaic row reads exactly when its position parses and REF and ALT exist |
| `VcfBuffered.ScanModern` | VCF_FILE_Python_IOBUFFER.py:169-184 | the inner loop does what `Scan` says: success, records moved past, rows written |
| `VcfBuffered.MergeRow` | VCF_FILE_Python_IOBUFFER.py:149-184 | one archaic row moves the state as `Step` says |
| `VcfBuffered.Merge` | VCF_FILE_Python_IOBUFFER.py:132-185 | the merge returns and writes exactly what `Outcome` says |
| `VcfBuffered.NonSnpSkipped` | VCF_FILE_Python_IOBUFFER.py:154-155 | a site whose REF or ALT is not one base writes nothing and leaves the cursor |
| `VcfBuffered.PrivateIgnoresPool` | VCF_FILE_Python_IOBUFFER.py:162-164 | as written, every single-base site with a non-zero call is written as private, whatever the pool holds; the row's position reads back as the site's |
| `VcfBuffered.ScanSkipBound` | VCF_FILE_Python_IOBUFFER.py:169-176 | a scan never moves the cursor past the end of the modern rows |
| `VcfBuffered.ScanLands` | VCF_FILE_Python_IOBUFFER.py:169-176 | on a sorted modern file the cursor moves past exactly the records before the archaic position and stops on the first that is not |
| `VcfBuffered.ScanWritesPrefix` | VCF_FILE_Python_IOBUFFER.py:169-184 | on any modern file, sorted or not, the rows a scan writes are a prefix of the reference: joined rows of compatible records at the archaic position, in file order |
| `VcfBuffered.StepJoins` | VCF_FILE_Python_IOBUFFER.py:162-184 | when the pool test lets a site through, every row one archaic row adds is a joined row of a compatible modern record at the archaic position from the cursor on, in file order |
| `VcfBuffered.ScanWritesMatches` | VCF_FILE_Python_IOBUFFER.py:169-184 | on a sorted, readable modern file a scan returns and writes exactly the joined rows of every compatible record at the archaic position, in order |
| `VcfBuffered.StepCursor` | VCF_FILE_Python_IOBUFFER.py:167-176 | one archaic row never moves the cursor back or past the end, and moves it only through a guarded scan; from the last modern row no scan runs, so the state is unchanged, failed, or extended by exactly one private row |
| `VcfBuffered.RunCursor` | VCF_FILE_Python_IOBUFFER.py:147-176 | the cursor stays between 1 and the number of modern lines and never decreases |
| `VcfBuffered.ChromosomeMismatch` | VCF_FILE_Python_IOBUFFER.py:133-141 | different chromosomes in the first data rows end the merge before anything is written |
| `VcfBuffered.MergeSucceeds` | VCF_FILE_Python_IOBUFFER.py:132-185 | with the same chromosome and well-formed rows the merge returns True, its output starting with the header |
| `VcfBuffered.RunKeepsHeader` | VCF_FILE_Python_IOBUFFER.py:145 | the output always starts with the header row |
| `VcfBuffered.StepRows` | VCF_FILE_Python_IOBUFFER.py:162-182 | every row one archaic row adds carries the merge's chromosome, `str(pos)` reading back as the site's position, its REF and its archaic count, and the earlier rows are kept |
| `VcfBuffered.LoadedTextHasNoData` | VCF_FILE_Python_IOBUFFER.py:28-38 | as written, a file whose data rows follow its header loads as the header line alone, and the merge then fails before writing anything |
| `VcfRe.OpenModern` | VCF_FILE_re.py:48-82 | the object is built exactly when there is a header line, its columns resolve and every data row has the POS cell; no header line, a missing column and a short row each fail with their own error; on success the text is the stripped text and the pool is its POS column |
| `VcfRe.OpenArchaic` | VCF_FILE_re.py:94-116 | the object is built exactly when there is a header line and its columns resolve; otherwise it fails with the reason; on success the text is the stripped text |
| `VcfRe.ScanModern` | VCF_FILE_re.py:165-180 | the inner loop does what `Scan` says: success and records moved past |
| `VcfRe.MergeRow` | VCF_FILE_re.py:144-180 | one archaic row moves the state as `Step` says |
| `VcfRe.Merge` | VCF_FILE_re.py:127-181 | the merge returns and writes exactly what `Outcome` says |
| `VcfRe.ScanAgrees` | VCF_FILE_re.py:165-180 | a scan returns exactly when the buffered scan returns without writing a row, and then moves the cursor as far |
| `VcfRe.StepAgrees` | VCF_FILE_re.py:147-178 | an archaic row goes through exactly when the buffered version handles it without writing, leaving the same state |
| `VcfRe.RunAgrees` | VCF_FILE_re.py:142-180 | the walk writes only the header; it is still going exactly when the buffered walk is still going with only its header written |
| `VcfRe.WritesOnlyHeader` | VCF_FILE_re.py:138-181 | the merge writes at most the header row, and returns True exactly when the buffered merge returns True having written only its header |

## Left out

- Gzip detection (`_is_gzipped`), file reading (`_get_fulltext`, `readlines`, `BufferedReader`) and the output file's name and compression are I/O. The inputs are the files' lines, already split on tabs.
- Output writing (`out_file.write`, `write_to_file`) is I/O. The output is the sequence of rows in the order they are written. The model does not capture that `write_to_file` (VCF_FILE_Python_IOBUFFER.py:44-49) reopens the output in `"wt"` mode on every call.
- `print` calls are left out. So is the choice of exit code: `exit(1)`, uncaught exceptions and `return False` all become a failed result.
- ParseNat accepts only non-empty ASCII digit strings. Python's `int()` also accepts signs, surrounding blanks, underscores and non-ASCII decimal digits; the model treats those inputs as raising.
- EncodeArchaic and EncodeModern read an allele as a digit only when it is an ASCII digit (`IsDigit`). Python's `int()` on one non-ASCII decimal digit returns its value. On such a token the model gives the `"0"` fallback for an archaic genotype and a failure for a modern one.
- VcfBuffered.MergeSucceeds and VcfBuffered.RunKeepsHeader hold for an output file that can be written and a reader that yields text lines. As written, `gzip.open(..., buffering=4096)` (VCF_FILE_Python_IOBUFFER.py:17 and 45) raises `TypeError`, because `gzip.open` takes no `buffering` argument. So `write_to_file` raises at the header write (line 145), and the buffered merge as written never returns True. Also, a `BufferedReader` over a text-mode file (lines 18 and 29) does not yield the `str` lines that `startswith('##')` needs. The model takes the reader's lines and the written rows as given.
- `VCF_FILE.py` calls the list `_maintext` as if it were a function (lines 87, 99, 109, 112, 121, 146). This is modelled as plain list access.
- `VcfRe` does not model the modern genotype list built at VCF_FILE_re.py:176-177, which makes a generator and never evaluates it. Writing that row raises before its contents matter, because the join at VCF_FILE_re.py:178 is handed the integer position. So `VcfRe.Scan` fails on every compatible record at the archaic position, whatever its sample column holds.
- VCF_FILE_Python_mmap.py, PramaParser.py and Generate_GT.py are not part of this model. They are a stub that collects comment lines, a command-line wrapper and a driver script.
- VcfBuffered.ScanLands: proved only for modern files sorted by position. On unsorted files only the bound of `VcfBuffered.ScanSkipBound` is proved.
- VcfBuffered.ScanWritesMatches: that a scan writes every matching row is proved only for sorted modern files whose sample tokens all encode. The other direction, that it writes only matching rows and in file order, holds on every modern file (`VcfBuffered.ScanWritesPrefix`, `VcfBuffered.StepJoins`).
- Running the merge twice on the same files is not stated as a property, because it concerns files on disk. Every model function is deterministic by construction.

## Findings

| source | as written | input that shows it | evidently intended | confidence | as-written member | corrected member |
|---|---|---|---|---|---|---|
| VCF_FILE.py:178 | the scan runs only while `seek_pointer < len(modern) - 1`, so it never starts at the last modern row (the same guard is at VCF_FILE_re.py:163 and VCF_FILE_Python_IOBUFFER.py:167) | a modern file with a single data row `1 200 . G C ... 0/1` and an archaic row `1 200 . G C ... 1/1`: the site is not private (its position is in the pool), the guard `1 < 1` fails, and no row is written | `seek_pointer < len(modern)` | high; not executed | `VcfFile.LastRecordDropped` | `VcfFile.IntendedJoinsAtCursor` |
| VCF_FILE_Python_IOBUFFER.py:162 | `pos` is parsed with `int()` (line 151) and looked up in the pool of position strings, which never contains it (also VCF_FILE_re.py:158) | an archaic SNP `1 200 . G C ... 1/1` and a modern record at `200`: the site is written as private with zero modern counts, and no joined row is written | look up the position string, as VCF_FILE.py:173 does | high; not executed | `VcfBuffered.PrivateIgnoresPool` | `VcfFile.PrivateSite` |
| VCF_FILE_Python_IOBUFFER.py:22-24 | the reader breaks right after the `#CHROM` line, so no data row is loaded (also lines 33-35) | any file with data rows after its header: `self.vcf()[1]` at line 134 raises and nothing is written | keep reading to the end, as VCF_FILE_re.py:14-41 does | high; not executed | `VcfBuffered.LoadedTextHasNoData` | `VcfCommon.StrippedFromHeader` |
| VCF_FILE_re.py:159 | the integer `pos` is passed to `"\t".join` (also line 178), which raises `TypeError` | any archaic SNP with a non-zero call: the private branch raises, and the output holds only the header | `str(pos)`, as VCF_FILE_Python_IOBUFFER.py:163 does | high; not executed | `VcfRe.WritesOnlyHeader` | `VcfBuffered.StepRows` |
| VCF_FILE.py:185-188 | on a modern record smaller than the archaic position the scan moves the cursor one row (`seek_pointer += 1`) and then `break`s, so the cursor passes at most one smaller record per archaic row | sorted modern rows `1 100`, `1 200`, `1 300` (`G C`, `0/1`) and archaic rows `1 100`, `1 200` (`G C`, `1/1`): the join at 100 leaves the cursor on 100; at 200 the scan steps past 100 and stops, so the compatible record at 200 is never joined | `continue` past every smaller record, as VCF_FILE_re.py:170-172 and VCF_FILE_Python_IOBUFFER.py:174-176 do, and as the comment at VCF_FILE.py:177 describes | high; not executed | `VcfFile.LaggingCursorMissesJoin` | `VcfBuffered.ScanWritesMatches` |
