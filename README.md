# MWSC RAW data parser, modelled in Dafny

`MWSC_RAW_DataParse.py` converts the hourly ASCII RAW dumps of the
University of Utah two-wavelength scintillometer system into four
per-instrument files. For each `*.RAW.ASC` file the script:

- reads the date `YYMMDD_hhmmss` from the file name;
- finds the `<n> # number of samples` header and cuts everything up to one
  character past it;
- divides the `n` declared samples into 20 chunks of `n // 20` records
  each, plus a last chunk of `n % 20` records (fewer than 20) when 20 does
  not divide `n`;
- cuts each chunk out of the text with a pattern repeating the 65-line
  record shape;
- hands each chunk to `sortData`.

`sortData` matches one composite record at a time. A record is a
meteorological header and data line, then three marked sub-blocks of 20
lines each: LAS aperture 1, LAS aperture 2 and MWS. Each record becomes
four output lines:

- the data line with all whitespace removed (Met);
- for each instrument, the first 18 characters of that compacted line,
  followed by the sub-block with every whitespace run collapsed to a comma.

The lines of every chunk are appended to `/Met/Met_<date>.dat`,
`/LAS1/LAS1_<date>.dat`, `/LAS2/LAS2_<date>.dat` and `/MWS/MWS_<date>.dat`
under the save directory.

The model has seven modules:

- `Base` holds shared sequences and arithmetic: Option/Result, joining,
  counting, repetition.
- `Text` holds the two substitutions of `sortData`.
- `Grammar` holds the record pattern `progBlock`, a recognizer for it, and
  its round trip with the text of a record.
- `Extractor` holds `sortData`, as a method with a loop, proved against a
  specification function.
- `Header` holds the sample-count search, the header cut and the chunk
  sizing.
- `Splitter` holds the chunk search and the chunking loop, both as written
  and as evidently intended.
- `Driver` holds the file date, the output names, the save directory as a
  class whose files the methods update, one file's conversion, and the loop
  over files.

The regular expressions are modelled by recognizers written for them and
proved against a literal reading of each pattern. In these patterns, `.`
matches any character but a line feed, and `\s` is exactly the set of
characters Python's `str.isspace` accepts.

The record format in the comments at MWSC_RAW_DataParse.py:88-95 gives 20
lines per sub-block, so a record with a sub-block one line short would be
expected not to match. That holds for the two LAS sub-blocks: the line where
the next marker must stand is then a sample line. It does not hold for an
MWS sub-block of 19 lines, and the model follows the code there.
`(.+\n){19}.+` takes the next line, the next record's `# Ye` header, as the
twentieth MWS line:

- The chunk pattern `(# Ye.+\n(.+\n){64}){k}` (lines 189-190) cuts 65-line
  units. A 64-line record is therefore cut together with the next record's
  header line, and the unit after it would start at that record's data
  line, which is no unit.
- When a whole record follows the short one, no chunk of two or more units
  starts at the short record, and the unanchored search moves past it to a
  later `# Ye` line (`Splitter.ShortMwsBreaksChunk`, with
  `Splitter.ChunkFromLeftmost` for the leftmost match). The chunk found
  there, if any, starts at a later record, so the short record is dropped.
  A chunk starting at an earlier record that would need the short record
  in its middle fails the same way, so those earlier records are dropped
  too. For example, with records R1, R2 (short), R3, R4, R5 and a chunk
  size of 3, the search finds the chunk R3 R4 R5. The lemma states the
  case where the search reaches the short record; the earlier starts are
  not stated as lemmas.
- Only when the short record is the last unit of a chunk is it cut:
  `sortData` then matches that unit and writes the record with the header
  collapsed into its MWS line (`Grammar.ShortMwsAtChunkEnd`,
  `Extractor.ShortMwsChunkEnd`). The next record is lost, because the
  following chunk search starts at its data line.
- In a buffer where such a record is followed by a whole record, `sortData`
  takes the header the same way (`Grammar.ShortMwsTakesNextHeader`), and
  extraction then stops at the data line (`Extractor.ShortMwsLosesNext`).

A buffer that ends right after 19 MWS lines is rejected
(`Grammar.TruncatedRecordRejected`); a chunk the script cuts ends only after
a whole 65-line unit.

## Model

| member | source | states |
|---|---|---|
| Text.Strip | MWSC_RAW_DataParse.py:46 | `re.sub(r"\s+", '', …)` leaves no whitespace and never lengthens the text |
| Text.StripAllSpace | MWSC_RAW_DataParse.py:46 | a text strips to nothing exactly when it is all whitespace, so a whitespace run is deleted, not replaced |
| Text.StripFixpoint | MWSC_RAW_DataParse.py:46 | stripping changes the text exactly when it holds whitespace |
| Text.StripAppend | MWSC_RAW_DataParse.py:46 | stripping a concatenation is concatenating the stripped parts |
| Text.Collapse | MWSC_RAW_DataParse.py:55-57 | `re.sub(r"\s+", ',', …)` leaves no whitespace and never lengthens the text |
| Text.CollapseFixpoint | MWSC_RAW_DataParse.py:55-57 | collapsing is the identity exactly on whitespace-free text, and collapsing twice equals collapsing once |
| Text.CollapseKeepsFields | MWSC_RAW_DataParse.py:55-57 | apart from commas, collapsing keeps exactly the non-whitespace characters, in order |
| Text.CollapseCommaCount | MWSC_RAW_DataParse.py:55-57 | each maximal whitespace run turns into exactly one comma |
| Text.CollapseAppend | MWSC_RAW_DataParse.py:55-57 | collapsing a concatenation whose left part does not end in whitespace is collapsing the parts |
| Text.CollapseRun | MWSC_RAW_DataParse.py:55-57 | a maximal whitespace run between two non-whitespace characters becomes exactly one comma, in its place |
| Grammar.LineEnd | MWSC_RAW_DataParse.py:96 | `.+` stops at the next line feed or at the end of the text |
| Grammar.ReadLines | MWSC_RAW_DataParse.py:96 | reading `k` lines yields exactly `k` lines and ends inside the text |
| Grammar.ReadLinesSound | MWSC_RAW_DataParse.py:96 | lines read are non-empty and free of line feeds, and joined with line feeds they are exactly the text read |
| Grammar.ReadLinesJoined | MWSC_RAW_DataParse.py:96 | reading back lines from their joined text, followed by a line feed or nothing, gives exactly those lines |
| Grammar.ReadLinesTooFew | MWSC_RAW_DataParse.py:96 | text holding fewer lines than asked for is not read |
| Grammar.MatchRecord | MWSC_RAW_DataParse.py:41 | `progBlock.match` ends inside the buffer, after at least one character |
| Grammar.MatchRecordSound | MWSC_RAW_DataParse.py:96 | a match is a well-formed record (markers on lines 0, 2, 23, 44; 20 lines per sub-block), and the text up to the match end is that record's text |
| Grammar.FromLines | MWSC_RAW_DataParse.py:96 | 65 lines cut into the named groups: header, data, three markers, three sub-blocks of 20 lines |
| Grammar.MatchRendered | MWSC_RAW_DataParse.py:96 | every well-formed record is matched at the front of its text, ending where its text ends |
| Grammar.LinesDetermine | MWSC_RAW_DataParse.py:96 | a record is determined by its lines, so the groups of a match are unique |
| Grammar.ShortSubBlockRejected | MWSC_RAW_DataParse.py:96 | a record whose LAS aperture 1 sub-block has only 19 lines is not matched |
| Grammar.TruncatedRecordRejected | MWSC_RAW_DataParse.py:96 | a record whose MWS sub-block has only 19 lines and ends the buffer is not matched |
| Grammar.ShortLas2Rejected | MWSC_RAW_DataParse.py:96 | a record whose LAS aperture 2 sub-block has only 19 lines is not matched |
| Grammar.ShortMwsTakesNextHeader | MWSC_RAW_DataParse.py:96 | a record whose MWS sub-block has only 19 lines, followed by another record, is matched with the next record's header line as its twentieth MWS line |
| Grammar.ShortMwsAtChunkEnd | MWSC_RAW_DataParse.py:96 | a record whose MWS sub-block has only 19 lines, followed by one more line and a line feed (the end of a cut chunk), is matched with that line as its twentieth MWS line, the match ending just before the final line feed |
| Extractor.Take | MWSC_RAW_DataParse.py:52 | `Met[:18]` is the first 18 characters, or all of a shorter text |
| Extractor.Advance | MWSC_RAW_DataParse.py:60 | `data[end+1:]` is exactly the text after the match and the one character following it, and empty when the match ends the text |
| Extractor.OutLines | MWSC_RAW_DataParse.py:49-57 | one output line per record, for each stream |
| Extractor.OutLinesAt | MWSC_RAW_DataParse.py:49-57 | the `i`-th line of a stream comes from the `i`-th record |
| Extractor.ExtractRecords | MWSC_RAW_DataParse.py:38-65 | the records the loop extracts, matched at the front and advanced past, are all well formed |
| Extractor.SortData | MWSC_RAW_DataParse.py:29-72 | the method returns the count of records matched from the front, and each stream joined from their lines in order |
| Extractor.OutLineIsOneLine | MWSC_RAW_DataParse.py:49-57 | each output line holds exactly one line feed, at its end |
| Extractor.OutLinesLineCount | MWSC_RAW_DataParse.py:68-72 | a joined stream holds exactly one line per record and ends with a line feed |
| Extractor.Stamp | MWSC_RAW_DataParse.py:46-52 | `Met[:18]` is the first 18 characters of the compacted data line, or all of a shorter one |
| Extractor.OutLine | MWSC_RAW_DataParse.py:46-57 | every output line of a record begins with its timestamp and ends with a line feed |
| Extractor.ExtractStopsAtFailure | MWSC_RAW_DataParse.py:39-65 | extraction keeps exactly the records before the first text that does not match, and nothing after it |
| Extractor.ExtractRoundTrip | MWSC_RAW_DataParse.py:29-72 | extracting from the text of well-formed records gives back exactly those records, in order |
| Extractor.ShortMwsLosesNext | MWSC_RAW_DataParse.py:38-65 | in a buffer where a record whose MWS sub-block has only 19 lines is followed by a whole record, the first swallows the second's header, and extraction then stops: the second record and everything after it are lost |
| Extractor.ShortMwsChunkEnd | MWSC_RAW_DataParse.py:38-65 | a chunk that ends with such a record and the next record's header line yields exactly that record, with the header as its twentieth MWS line |
| Header.DigitEnd | MWSC_RAW_DataParse.py:85 | greedy `\d+` ends at the first non-digit |
| Header.SpaceEnd | MWSC_RAW_DataParse.py:85 | greedy `\s+` ends at the first non-whitespace |
| Header.NumSampleAt | MWSC_RAW_DataParse.py:85 | a match at `i` has at least one digit and at least one whitespace character, and ends with `# number of samples` inside the text |
| Header.NumSampleAtIff | MWSC_RAW_DataParse.py:85 | the recognizer matches at `i` exactly when the pattern, read literally, does, and it finds the pattern's only split |
| Header.NumSampleFrom | MWSC_RAW_DataParse.py:159 | `search` finds a match at the leftmost position where the pattern matches, and nothing exactly when it matches nowhere |
| Header.CutHeaderMissing | MWSC_RAW_DataParse.py:159-160 | the file fails for want of a header exactly when the pattern matches nowhere |
| Header.CutHeaderSuffix | MWSC_RAW_DataParse.py:159-163 | the text kept after the header is a suffix of the file's text, shorter by at least the comment and one digit |
| Header.DigitsValueBound | MWSC_RAW_DataParse.py:160 | `int()` of `k` digits is below `10` to the power `k` |
| Header.DigitsValueDecimal | MWSC_RAW_DataParse.py:160 | `int()` reads back every number from its decimal digits |
| Header.HeaderRoundTrip | MWSC_RAW_DataParse.py:159-163 | a header line written for `n` samples is read back as `n`, and the cut keeps exactly the text after it |
| Header.CutHeaderWholeNumber | MWSC_RAW_DataParse.py:160 | the count read is a whole digit run, never the tail of a longer number |
| Header.CutHeaderLine | MWSC_RAW_DataParse.py:159-163 | a header line at the start yields its number and exactly the text after its line feed |
| Header.CutHeaderAfter | MWSC_RAW_DataParse.py:158-163 | after header lines that hold no count and do not end in a digit, the count line is found; the count is its digits' value and the data is the text after that line |
| Header.CutHeaderAtStart | MWSC_RAW_DataParse.py:163 | when the match starts the text, the cut starts one character after the end of the match |
| Header.ChunkPlan | MWSC_RAW_DataParse.py:168-179 | chunk size times the target count (`numChunks`, 20), plus the last size if present, is `n`; the last chunk exists exactly when the target count does not divide `n`, and is then smaller than it; the chunk count rises by one with it |
| Header.ChunkPlanUnique | MWSC_RAW_DataParse.py:168-179 | those properties determine the plan |
| Header.ChunkPlanExamples | MWSC_RAW_DataParse.py:168-179 | 1000 samples make 20 chunks of 50; 1005 make 21 chunks with a last chunk of 5 |
| Splitter.UnitAt | MWSC_RAW_DataParse.py:189 | one repetition of `# Ye.+\n(.+\n){64}` (65 lines, each ending with a line feed, the first a Met header) ends after its start, inside the text |
| Splitter.UnitsAt | MWSC_RAW_DataParse.py:189 | `{k}` repetitions end at or after their start, inside the text |
| Splitter.ChunkFrom | MWSC_RAW_DataParse.py:190 | a match found is `k` units starting at the position found |
| Splitter.ChunkFromLeftmost | MWSC_RAW_DataParse.py:190 | the chunk found starts at the leftmost position where `k` units match, and nothing is found exactly when they match nowhere |
| Splitter.ChunkSearch | MWSC_RAW_DataParse.py:190 | `progChunk.search` returns start and end inside the text |
| Splitter.SplitPrefix | MWSC_RAW_DataParse.py:186-196 | a schedule of searches makes at most one chunk per search, and the buffer left is always a suffix of the text |
| Splitter.SplitChunks | MWSC_RAW_DataParse.py:186-196 | the method's chunks and remaining text are those of the intended schedule of searches |
| Splitter.SearchMissesShortText | MWSC_RAW_DataParse.py:190 | `k` units need `65·k` line feeds, so text with fewer yields no chunk |
| Splitter.UnitRendered | MWSC_RAW_DataParse.py:189 | the text of a well-formed record, followed by a line feed, is one unit |
| Splitter.UnitsRendered | MWSC_RAW_DataParse.py:189 | the text of `k` well-formed records is `k` units |
| Splitter.SearchRendered | MWSC_RAW_DataParse.py:190 | searching the text of at least `k` records finds the first `k` at the start |
| Splitter.Taken | MWSC_RAW_DataParse.py:186-196 | the records a schedule of searches consumes never exceed those available |
| Splitter.SourceSchedule | MWSC_RAW_DataParse.py:186-193 | the loop as written searches `count + 1` times: normal size for the first `count`, then the last size if there is one |
| Splitter.IntendedSchedule | MWSC_RAW_DataParse.py:166-193 | the intended loop searches `count` times: normal size, except the last search when there is a last chunk |
| Splitter.SplitRendered | MWSC_RAW_DataParse.py:186-196 | on the text of well-formed records, any schedule cuts chunks holding exactly the records it consumes, in order, and leaves the text of the rest |
| Splitter.TakenSum | MWSC_RAW_DataParse.py:186-196 | when the sizes fit, the searches consume their sum |
| Splitter.IntendedScheduleSum | MWSC_RAW_DataParse.py:168-179 | the intended schedule has one size per chunk, and the sizes add up to `n` |
| Splitter.IntendedSplitKeepsAll | MWSC_RAW_DataParse.py:168-196 | intended chunking of the text of at least `n` records keeps exactly the first `n`, in order |
| Splitter.SourceTaken | MWSC_RAW_DataParse.py:186-196 | the source's schedule consumes `n` records, except when the last size is at least the chunk size, the chunk size is positive and the last size is at least the chunk size, in which case it consumes `n - lastSize + chunkSize` |
| Splitter.SourceSplitKeeps | MWSC_RAW_DataParse.py:186-196 | the source's chunking of exactly `n` records keeps only the first `SourceKept` of them |
| Splitter.SourceSplitLosesRecords | MWSC_RAW_DataParse.py:186-196 | with 25 samples, the source's chunks hold 21 records and the intended chunks all 25 |
| Splitter.ShortMwsBreaksChunk | MWSC_RAW_DataParse.py:189-190 | a record one MWS line short followed by a whole record starts no chunk of two or more units, so the search result is that of the search from the next position |
| Splitter.LoopAsWritten | MWSC_RAW_DataParse.py:186-193 | the loop as written raises `NameError` exactly when it reaches a normal-size search before any pattern is bound; otherwise it makes at most one chunk per remaining iteration |
| Splitter.LoopAsWrittenSchedule | MWSC_RAW_DataParse.py:186-194 | with the normal-size pattern bound before the loop, the written loop's chunks and remaining buffer are exactly those of the `count + 1` searches of `SourceSchedule` |
| Splitter.LoopAsWrittenFails | MWSC_RAW_DataParse.py:186-193 | the loop as written fails on its first iteration, whatever the text and the sample count |
| Driver.DateFrom | MWSC_RAW_DataParse.py:144 | `progFileName.search` finds the leftmost position where six digits, an underscore and six digits stand, or nothing when there is none |
| Driver.FileDate | MWSC_RAW_DataParse.py:144-145 | a date is found exactly when the name holds the pattern; it is the name's text at the leftmost place the pattern matches, six digits, an underscore and six digits |
| Driver.LeadsDiffer | MWSC_RAW_DataParse.py:149-152 | the four output names begin differently |
| Driver.PathOfInjective | MWSC_RAW_DataParse.py:149-152 | two output paths coincide exactly when stream and date do |
| Driver.WithText | MWSC_RAW_DataParse.py:209-212 | replacing one stream's text changes that stream and nothing else |
| Driver.Convert | MWSC_RAW_DataParse.py:144-212 | a file fails for want of a date exactly when its name holds none, and for want of a header exactly when it has a date and no header; a converted file carries the name's date |
| Driver.ConvertFails | MWSC_RAW_DataParse.py:144-160 | a file fails for want of a date exactly when its name holds none; it fails for want of a header exactly when it has a date and its text holds no header |
| Driver.ConvertLineCounts | MWSC_RAW_DataParse.py:205-212 | each of the four files holds one line per record of the chunks, so all four have the same number of lines |
| Driver.ConvertRecords | MWSC_RAW_DataParse.py:144-212 | a file with a date, header lines holding no count, a count line for `n` samples and at least `n` well-formed records converts to the lines of exactly the first `n` records, in order, in each stream |
| Driver.HeaderedConvert | MWSC_RAW_DataParse.py:144-163 | a file whose text has a count line after header lines that hold no count converts the text after the count line, with the declared count |
| Driver.ChunksKeep | MWSC_RAW_DataParse.py:166-212 | the chunks cut for `n` samples from at least `n` well-formed records carry exactly the first `n` to every stream |
| Driver.TextsOf | MWSC_RAW_DataParse.py:205-212 | each stream of a conversion holds the lines of the records of its chunks |
| Driver.SaveDir.Open | MWSC_RAW_DataParse.py:199-202 | `open(…, "w+")` creates or empties that file and leaves the others alone |
| Driver.SaveDir.Write | MWSC_RAW_DataParse.py:209-212 | `write` appends to that file and leaves the others alone |
| Driver.StoreReads | MWSC_RAW_DataParse.py:199-212 | after a conversion is written, each of its four paths holds its stream, and every other path is as before |
| Driver.StoreWrite | MWSC_RAW_DataParse.py:209-212 | appending to one stream's file of a written conversion gives the files of the conversion with that stream's text replaced |
| Driver.StreamStep | MWSC_RAW_DataParse.py:205-212 | one more chunk appends its records' lines to each stream |
| Driver.ConvertFile | MWSC_RAW_DataParse.py:139-218 | one file: the result is the conversion's outcome; on success the four files hold the four streams under the file's date, and on failure nothing is written |
| Driver.WriteChunk | MWSC_RAW_DataParse.py:206-212 | the four writes of one chunk advance every stream by that chunk's lines |
| Driver.LastFileWins | MWSC_RAW_DataParse.py:133-152 | when two files share a date, the later one's output replaces the earlier one's |
| Driver.StoreAll | MWSC_RAW_DataParse.py:133-218 | writing the conversions of a list of files never removes a file |
| Driver.ConvertAll | MWSC_RAW_DataParse.py:133-218 | files are converted in order until the first failure, which ends the run; the save directory then holds the outputs of the files before it |

## Left out

- Reading the directory listing, the files themselves (ISO 8859-1 decoding) and closing the files are left out. Inputs are given as a sequence of (name, text) pairs, in the order `glob` lists them.
- `os.makedirs` of the save directory and its four sub-directories (lines 122-131) is left out. Paths are keys in a map, so no directory has to exist.
- Timing and progress messages (`timeit`, `print`) are left out.
- `sortData` takes the record pattern as a parameter; the model fixes it to `progBlock`, the only pattern the script passes.
- `Splitter.SplitChunks`, `Driver.Convert`, `Driver.HeaderedConvert`, `Driver.ConvertRecords`, `Driver.ChunksKeep`, `Driver.TextsOf`, `Driver.ConvertFile`, `Driver.StoreAll` and `Driver.ConvertAll` follow the evidently intended chunking loop, not the one written (see Findings). The written loop is modelled by `Splitter.LoopAsWritten` and `Splitter.SourceSchedule`, which `Splitter.LoopAsWrittenSchedule` ties together.
- Driver.DateFrom: the name's digits are ASCII `0`-`9`. Python's `\d` also accepts other Unicode decimal digits in a file name; in the file's text, decoded as ISO 8859-1, ASCII digits are the only decimal digits.
- Header.DigitsValue: `int()` of an ASCII digit run only. Underscores and signs cannot occur, because the run comes from `\d+`.
- A record whose MWS sub-block is one line short is not rejected, although the record format in the comments at lines 88-95 gives 20 lines; the model follows the code, and `Grammar.ShortMwsAtChunkEnd`, `Extractor.ShortMwsChunkEnd`, `Grammar.ShortMwsTakesNextHeader`, `Extractor.ShortMwsLosesNext` and `Splitter.ShortMwsBreaksChunk` state what it does: followed by a whole record, the short record is passed over by the chunk search, and it and the records before it in that search are dropped.
- An uncaught exception ends the source run. `Driver.ConvertAll` returns the failure and the number of files converted before it; the files written so far stay.

## Findings

| source | as written | input that shows it | evidently intended | confidence | as-written member | corrected member |
|---|---|---|---|---|---|---|
| MWSC_RAW_DataParse.py:193 | the normal-size search uses `progChunk`, whose only binding for normal chunks is commented out at line 183; the branch at line 189 binds it only for the last chunk, which comes later | the first file of a run that has a date in its name and a sample-count header in its text: the first iteration (`i == 0`) takes the normal branch while `progChunk` is unbound, so it raises `NameError` and the run ends | each normal search uses the chunk pattern built from `chunkSize` | not executed | Splitter.LoopAsWrittenFails | Splitter.SplitChunks |
| MWSC_RAW_DataParse.py:186 | `range(0, workingNumChunks+1)` makes one normal-size search more than there are normal chunks | 25 samples, 25 records: chunk size 1 and last size 5; the 21 normal searches take 21 records, and the search for 5 finds only 4 left and misses, so records 22-25 are lost | 20 normal searches, then one of the last size | not executed | Splitter.SourceSplitLosesRecords | Splitter.IntendedSplitKeepsAll |
