# checkFile, modelled in Dafny

checkFile checks that the extension of each file agrees with the file type
that the `file --mime-type` utility detects. It takes a list of paths, a
batch file that holds one path per line, or a directory. It runs the
detector once per path in list and directory modes, or once over the batch
file in batch mode. It cuts the captured output into one line per file. For
each file it decides one outcome (skipped directory, error, no extension,
OK, mismatch, unsupported) and counts it in six summary counters.

The model covers that decision core:

- `wrappers.dfy`: `Option`, `Result`, and the fatal error codes as `Faults.Fault`.
- `cstring.dfy`: `strcspn`, `strspn`, `strrchr`, `strstr` and `strncmp` over Dafny strings. A Dafny string stands for a NUL-terminated C string that holds no NUL.
- `strtok.dfy`: `strtok` with one delimiter. Its saved position is the unread rest. It comes with a reference definition: cut at every delimiter and drop the empty pieces.
- `detector.dfy`: `lineSplit` as an imperative method over the `linesPipe` array, plus the subtype taken from a detector line.
- `matcher.dfy`: the extension, the `validExt` allow-list, `extMatch`, and the per-file decision `Classify`.
- `analysis.dfy`: the per-file loop with its six counters as a method. It is proved against the functions `Tally` and `Summary`, and the counting properties are proved about those functions.
- `directory.dfy`: directory normalisation and the `readdir` loop that builds the entry paths.
- `batch.dfy`: `lineCounter`, the `fgets` loop that reads the batch file, and the finding about them.
- `memory.dfy`: `swap_bytes` over arrays, including the case where source and destination are the same array.
- `modes.dfy`: whole runs of the directory and batch modes.
- `scenarios.dfy`: concrete decisions and runs.

The detector's output, the batch file's contents and the directory listing
are inputs to the model. `None` stands for a file or directory that cannot be
opened.

In these places the model follows checkFile's code, which may surprise a reader:

- A detected subtype `jpg` or `jpeg` makes every extension OK, not only `.jpg` and `.jpeg` (main.c:384).
- A directory argument gets one '/' appended unless it already ends with '/'. So "" becomes "/", and "a//" stays as it is (main.c:136-142).
- The batch count is one more than the number of newlines, so a final newline does add a line. See "## Findings".
- In list and directory modes the detector is run once per file (main.c:176-210).
- The detector is run with `-b`, so a line is `type/subtype` without the path (main.c:190, 195, 201).
- A detector output with more lines than files is not an error; the extra lines are ignored. With fewer lines, lineSplit leaves NULL slots. The source then hands NULL to `strstr`, which is undefined behaviour. The model stops the run with `MissingLine(pos)` at the first such file.

## Model

| member | source | states |
|---|---|---|
| CString.Span | main.c:140 | strcspn: the result is the length of the longest prefix without the character; the character itself sits at that index unless the end is reached |
| CString.SpanOfJoin | main.c:140 | the span of a delimiter-free text followed by the delimiter or the end is that text's length |
| CString.SkipLeading | main.c:375 | what strtok skips first: only delimiters are skipped, and the rest starts with a non-delimiter |
| CString.SkipLeadingSuffix | main.c:375 | what strtok leaves after skipping is a suffix of the input |
| CString.LastIndex | main.c:297 | strrchr: NULL exactly when the character is absent; otherwise an index holding the character with no later occurrence |
| CString.Contains | main.c:299 | strstr(s, t) != NULL: a scan from the left for a start position where every character of t matches; ContainsIff states what it means |
| CString.ContainsIff | main.c:299 | strstr finds the needle exactly when it occurs at some position |
| CString.MissingCharNotContained | main.c:303 | a text lacking some character of the needle does not contain it |
| CString.StrnEq | main.c:335 | strncmp(a, b, n) == 0: the first n characters agree, a string that ends earlier comparing its terminating NUL; StrnEqShort states it for a short argument |
| CString.StrnEqShort | main.c:335 | strncmp with a bound longer than one argument is plain string equality |
| Strtok.Tokens | main.c:375-378 | the tokens successive strtok calls return, by a scan from the left; NextTokenTokens ties it to one call and TokensAreNonEmptyPieces to the reference cut |
| Strtok.TokenAt | main.c:375-378 | what the k-th strtok call returns: the k-th token, or NULL once the tokens run out |
| Strtok.NextToken | main.c:375-378 | one strtok call yields a non-empty, delimiter-free token and strictly shortens the unread rest |
| Strtok.NextTokenTokens | main.c:375-378 | strtok returns NULL exactly when no tokens remain; otherwise it returns the first token and leaves exactly the others |
| Strtok.NextTokenSkips | main.c:375-378 | a leading delimiter is skipped by one strtok call and by the token scan alike |
| Strtok.NextTokenTakes | main.c:375-378 | without a leading delimiter one strtok call takes the run up to the first delimiter and continues after it |
| Strtok.Split | main.c:375-378 | the reference cut gives at least one piece, and no piece holds the delimiter |
| Strtok.JoinSplit | main.c:375-378 | joining the pieces with the delimiter gives the input back |
| Strtok.TokensAreNonEmptyPieces | main.c:375-378 | the strtok tokens are exactly the non-empty pieces, in order |
| Strtok.TokensWellFormed | main.c:375-378 | every token is non-empty and holds no delimiter |
| Strtok.TokensOfPlain | main.c:375-378 | a text without the delimiter is one token, or none when empty |
| Strtok.TokensOfLine | main.c:375-378 | a non-empty line ended by the delimiter is the first token, and scanning carries on after it |
| Detector.LineSplit | main.c:373-380 | slot i < max holds the i-th newline token or NULL once tokens run out; slot 0 is written even when max is 0; later slots are untouched |
| Detector.SplitLines | main.c:373-380 | lineSplit's slots as a value: exactly max of them, slot i holding the i-th newline token or NULL; SplitLinesShape states their shape |
| Detector.SplitLinesShape | main.c:373-380 | a slot is non-NULL exactly when that many lines exist; each line is the next maximal run, non-empty and free of newlines |
| Detector.Subtype | main.c:319-324 | the second of two strtok calls over '/' on a copy of the line; a subtype found is non-empty and free of '/' |
| Detector.SubtypeIsSecondToken | main.c:320-324 | the subtype is the second '/'-token of the line, non-empty and free of '/', or NULL |
| Detector.SubtypeOfMime | main.c:320-324 | for a line "type/subtype" the subtype is the text after the '/' |
| Matcher.Extension | main.c:297 | strrchr(path, '.') + 1: there is none exactly when the path has no '.'; one found is shorter than the path and holds no '.' |
| Matcher.ExtensionShape | main.c:297 | there is no extension exactly when the path has no '.'; otherwise the path is base + "." + ext with no '.' in ext |
| Matcher.ExtensionOfJoin | main.c:297 | appending "." and a dot-free text gives that text back as the extension |
| Matcher.Supported | main.c:334-335 | the allow-list test: strncmp(token, validExt[i], 5) == 0 for one of the eight entries of validExt (main.c:53-60, Matcher.ValidExt); SupportedIff states it as membership |
| Matcher.SupportedIff | main.c:334-335 | the 5-character strncmp test against validExt is exact membership in the eight-entry list |
| Matcher.ExtMatch | main.c:383-392 | extMatch: the extension's first 6 characters compare equal to the subtype, or the subtype is jpeg or jpg; ExtMatchIff states it for allow-listed subtypes |
| Matcher.ExtMatchIff | main.c:383-384 | for an allow-listed subtype, extMatch is equality with the extension, or true for any extension when the subtype is jpeg or jpg |
| Matcher.Classify | main.c:290-356 | the decision for one file in the source's order: directory, failure, no extension, then allow-list and extMatch; the Classify...Iff lemmas below state each outcome's exact condition |
| Matcher.ClassifySkippedIff | main.c:299-301 | a file is skipped exactly when its line contains "/directory" |
| Matcher.ClassifyErrorIff | main.c:303-316 | an error exactly when the line contains "cannot" and not "/directory" |
| Matcher.ClassifyNoExtensionIff | main.c:326-331 | no extension exactly when the line holds neither marker and the path has no '.', whatever the subtype |
| Matcher.ClassifyOkIff | main.c:334-342 | OK exactly when the subtype is allow-listed and equals the extension, or is jpeg or jpg |
| Matcher.ClassifyMismatchIff | main.c:334-345 | a mismatch exactly when the subtype is allow-listed, is not jpeg or jpg, and differs from the extension |
| Matcher.ClassifyUnsupportedIff | main.c:351-355 | unsupported exactly when the path has a '.' and the subtype is missing or not allow-listed |
| Matcher.ClassifyFacts | main.c:297-335 | the tests of the decision in terms of occurrences, '.' membership, the second token and list membership |
| Matcher.ClassifyMime | main.c:297-356 | for "base.ext" and "type/subtype": OK, mismatch or unsupported as the allow-list and extMatch decide |
| Analysis.Record | main.c:312-355 | a skipped directory leaves the counters as they are; any other outcome changes them and keeps them balanced |
| Analysis.RecordFields | main.c:312-355 | field by field: the outcome's own counter and the total go up by one, except for a skipped directory |
| Analysis.RecordCounts | main.c:312-355 | recording one outcome adds it to the counted outcomes and keeps the total equal to the non-skipped files |
| Analysis.Tally | main.c:274-357 | the counters after the loop has gone through the files in order; TallyCounts states what each counter then holds |
| Analysis.TallyCounts | main.c:274-357 | each counter is the number of files with that outcome; total is the number of files minus skipped directories; total equals the sum of the other five |
| Analysis.OutcomesSnoc | main.c:274 | the outcomes of a longer list are those of its prefix plus the last file's |
| Analysis.FirstMissing | main.c:299 | the first file whose line is NULL, or none when every file has a line |
| Analysis.FirstMissingAt | main.c:274-299 | the first NULL line is found at its position |
| Analysis.TallyStep | main.c:274-357 | one more file adds its outcome to the counters of the files before it |
| Analysis.Entries | main.c:274-299 | pairs file i with line i, one entry per file |
| Analysis.Summary | main.c:274-357 | the per-file loop's result: MissingLine(k) at the first file k whose line is NULL, else the counters over the files paired with their lines; TallyCounts and AnalyzeOutcome state what it holds |
| Analysis.Summarize | main.c:274-357 | the loop over six counters computes Summary and ends balanced, or fails at the first file with a NULL line |
| Analysis.Analyze | main.c:220-232 | splitting the detector output into one slot per file and then running the loop gives Summary of the split lines |
| Analysis.AnalyzeOutcome | main.c:220-357 | the run fails exactly when there are fewer detector lines than files, at the first file without a line; otherwise file i is judged by line i and total is the number of non-directories |
| Directory.NormalizeDir | main.c:136-142 | the result ends with '/': the argument itself if it already did, else the argument plus "/" |
| Directory.EntryPaths | main.c:152-164 | the paths the readdir loop builds, in listing order; EntryPathsMembers and EntryPathsCount state which paths and how many |
| Directory.NormalizeDirIdempotent | main.c:136-142 | normalising an already normalised directory changes nothing |
| Directory.CollectEntries | main.c:152-165 | the loop builds EntryPaths in listing order, and dirCount is the number of paths built |
| Directory.ResolveDirectory | main.c:134-173 | ERR_OPEN_DIR when the directory cannot be opened, else the entry paths under the normalised directory |
| Directory.EntryPathsAppend | main.c:152-165 | the entries of a listing in two parts are those of the first part followed by the second's |
| Directory.EntryPathsMembers | main.c:152-164 | a path is built exactly when it is the directory plus a listed name other than "." or ".." |
| Directory.NoDotPaths | main.c:155-157 | "." and ".." never become entry paths |
| Directory.EntryPathsCount | main.c:164-173 | dirCount is the listing length minus its "." and ".." entries |
| Batch.LineCount | main.c:395-419 | lineCounter's result: it succeeds exactly when the file holds a newline, and a success is at least 2 |
| Batch.LineCounter | main.c:395-419 | the getc loop returns one plus the number of newlines, failing with ERR_COUNT_LINES exactly when there is none; any success is at least 2 |
| Batch.FGets | main.c:245 | fgets returns NULL exactly at end of file; otherwise a non-empty line that, with what follows, is the unread rest, holds a newline only as its last character, and ends with one unless the file ends there |
| Batch.BatchLines | main.c:242-247 | the lines successive fgets calls return until end of file; BatchLinesConcat, BatchLinesCount and BatchLinesWellFormed state that they rebuild the file, how many there are and their shape |
| Batch.BatchLinesConcat | main.c:242-250 | reading line by line loses nothing: the lines put together are the file |
| Batch.BatchLinesCount | main.c:242-250 | fgets reads one line per newline, plus one for text after the last newline |
| Batch.BatchLinesWellFormed | main.c:242-247 | every line read holds a newline only as its last character, and every line but the last ends with one |
| Batch.BatchRead | main.c:242-250 | reading max lines gives the first max paths, or ERR_FGETS when the file has fewer lines; ReadBatch computes it |
| Batch.ReadBatch | main.c:235-253 | the fgets loop gives the first max lines with their newline stripped, or ERR_FGETS when the file has fewer |
| Batch.BatchPathsAsWritten | main.c:222-250 | the batch list as written: lineCounter sizes it and the fgets loop fills it; TrailingNewlineFails, SinglePathRejected and CountsAgree state what it gives |
| Batch.TrailingNewlineFails | main.c:398-408 | as written, every batch file that ends with a newline makes the run fail with ERR_FGETS: the count is one too many, and the extra fgets call fails at main.c:245-246 |
| Batch.SinglePathRejected | main.c:414-417 | as written, a batch file with one path and no newline fails with ERR_COUNT_LINES although fgets can read it |
| Batch.OnePathWithNewline | main.c:395-419 | "a.pdf\n" holds one readable line, yet the run fails with ERR_FGETS |
| Batch.OnePathWithoutNewline | main.c:395-419 | "a.pdf" holds one readable line, yet the run fails with ERR_COUNT_LINES |
| Batch.CountBatchLines | main.c:395-419 | the intended count is the number of lines fgets can read; it fails only for an empty file, and any success is at least 1 |
| Batch.BlankLineKept | main.c:242-249 | blank lines are read and kept: a file holding only "\n" is one line and one path, the newline itself, and the corrected count is 1 |
| Batch.StripNewline | main.c:249 | strtok(line, "\n") on an fgets line: the result is the line or the line without one final newline, and only a newline is dropped |
| Batch.StripNewlineIsStrtok | main.c:249 | on a line fgets returns, StripNewline is strtok's first token, or the line itself when strtok returns NULL |
| Batch.Paths | main.c:242-250 | one path per line fgets can read, in file order, each with its newline stripped |
| Batch.PathsAreTokens | main.c:245-249 | path i is strtok's first newline token of line i, or line i itself when strtok returns NULL |
| Batch.ResolveBatch | main.c:116-253 | with the corrected count: ERR_OPEN_FILE when the file cannot be opened, ERR_COUNT_LINES when it is empty, else every line with its newline stripped |
| Batch.CountsAgree | main.c:395-419 | for a file holding a newline but not ending with one, the source's count and the intended count agree |
| Modes.DirectoryRun | main.c:134-359 | directory mode ends with ERR_OPEN_DIR, or with the summary over the entry paths and their detector lines, balanced |
| Modes.BatchRun | main.c:116-359 | batch mode with the corrected count ends with ERR_OPEN_FILE, ERR_COUNT_LINES for an empty file, or the summary over every line of the file, balanced |
| Modes.BatchRunCounts | main.c:220-359 | a batch run has one path per newline plus one for unterminated text, and succeeds exactly when the detector gave at least that many lines |
| Memory.ReversedAt | memory.c:58-60 | byte i of the reversal is byte n - 1 - i of the original |
| Memory.ReversedTwice | memory.c:58-60 | reversing twice gives the bytes back |
| Memory.SwapInto | memory.c:58-60 | dest after a call on distinct buffers: the first n bytes of source reversed, then dest's own bytes; SwapIntoAt states it byte by byte |
| Memory.SwapInPlace | memory.c:58-60 | the buffer after a call with source == dest: byte i takes byte n - 1 - i while 2i < n, and the other bytes keep their values; SwapInPlacePalindrome states what that gives |
| Memory.SwapIntoAt | memory.c:58-60 | on distinct buffers dest[i] is source[n - 1 - i] for i < n, and dest keeps its bytes from n on |
| Memory.SwapTwiceRestores | memory.c:58-59 | swapping source into a scratch buffer and that into dest reproduces source's first n bytes |
| Memory.SwapNothing | memory.c:58-61 | with num_bytes 0 nothing is written, for distinct or shared buffers |
| Memory.SwapInPlacePalindrome | memory.c:58-60 | on one buffer the first n bytes come out a palindrome, and a buffer already a palindrome there is unchanged |
| Memory.SwapBytes | memory.c:54-62 | returns dest; distinct buffers: dest becomes the reversed prefix of source followed by its own bytes and source is unchanged; one buffer: the second half is mirrored onto the first and the second half keeps its bytes |
| Memory.SwapTwice | memory.c:58-59 | two calls through a scratch buffer copy source's first n bytes into dest and keep dest's other bytes |
| Scenarios.NoMarker | main.c:299-303 | a line with neither 'r' nor 'c' marks neither a directory nor a failure |
| Scenarios.PdfIsOk | main.c:297-342 | "a.pdf" detected as application/pdf is OK |
| Scenarios.PdfLineNoFailure | main.c:303 | "application/pdf" does not contain "cannot" |
| Scenarios.PngIsOk | main.c:297-342 | "a.png" detected as image/png is OK |
| Scenarios.TextIsUnsupported | main.c:351-355 | "b.txt" detected as text/plain is unsupported |
| Scenarios.PngAsGifIsMismatch | main.c:334-345 | "a.png" detected as image/gif is a mismatch |
| Scenarios.JpegMatchesAnything | main.c:384 | image/jpeg is OK for photo.jpg, photo.jpeg and photo.pdf alike |
| Scenarios.NoDotIsNoExtension | main.c:326-331 | "noext" detected as image/png has no extension |
| Scenarios.DotInDirectoryName | main.c:297 | "dir.v2/readme" has the extension "v2/readme" and is unsupported, not without extension |
| Scenarios.DirectoryDotExtension | main.c:297 | the extension of "dir.v2/readme" is "v2/readme" |
| Scenarios.DirectoryIsSkipped | main.c:299-301 | a line inode/directory is skipped |
| Scenarios.CannotIsError | main.c:303-316 | a detector message starting with "cannot" and holding no '/' is an error for any path |
| Scenarios.TwoLineOutput | main.c:373-380 | two lines each ended by a newline are the two tokens |
| Scenarios.TwoFileSummary | main.c:220-357 | two files and two detector lines: file 1 is judged by line 1 and file 2 by line 2 |
| Scenarios.TwoEntryTally | main.c:274-357 | an OK file and an unsupported file give total 2, ok 1, unsupported 1 |
| Scenarios.TwoFileRun | main.c:220-359 | "a.png" and "b.txt" with the output "image/png\ntext/plain\n" give the counters 2, 1, 0, 0, 1, 0 |
| Scenarios.MissingLineRun | main.c:220-299 | two files and one detector line fail at the second file |
| Scenarios.SharedBufferSwap | memory.c:58-60 | on one buffer, [1, 2, 3, 4] with num_bytes 4 becomes [4, 3, 3, 4] |
| Scenarios.DirectoryLineSkipped | main.c:299-301 | any line holding "/directory" after a major type is skipped, for any path |

## Left out

- Process plumbing is not modelled: `fork`, `execlp`, `dup2`, `wait`, the pipe and its `read` loop (main.c:104-107, 176-218). The detector's captured output is an input string.
- The pipe buffer's limits are not modelled. The read loop does not NUL-terminate `pipeBuffer`, and a later `read` overwrites an earlier one beyond BUFFER_MAX bytes. The model takes the output as a whole string.
- The LINE_MAX bounds are not modelled; strings are unbounded. `fgets` (main.c:245) reads at most LINE_MAX - 1 characters, so a longer batch line becomes several paths and the list shifts against lineCounter's count. `strcpy` and `strcat` (main.c:138, 141, 162-163, 320) write past their LINE_MAX-byte buffers on longer input.
- The signal handler, `sigaction`, the signal globals, `time` and `localtime` (main.c:62-65, 94-102, 266-288, 421-436) are asynchronous or wall-clock behaviour.
- The `printf` lines per file and the summary line (main.c:326-359, 385-390) are output text; the model gives the outcome and the counters they print.
- The re-open check of an unreadable file at main.c:305-311 only prints a diagnostic; it does not change the outcome.
- Failures of `fclose` and `closedir` (ERR_CLOSE_FILE, ERR_CLOSE_DIR) and allocation failures in the `eipa_*` wrappers of memory.c are I/O and allocator faults, outside the model.
- Argument parsing by gengetopt and the list mode's copy of its arguments (main.c:254-262) are left out; in list mode the paths are the input sequence.
- Analysis.Summarize: where the source hands a NULL line to `strstr`, which is undefined behaviour, the model stops with `MissingLine(pos)` instead of claiming a behaviour.
- Matcher.Classify: a NULL subtype with an extension present reaches `strncmp(NULL, …)`, which is undefined behaviour; the model takes it as unsupported.
- Memory.SwapBytes: buffers that overlap only in part are not modelled. Dafny arrays are either the same array or disjoint.

## Findings

| source | as written | input that shows it | evidently intended | confidence | as-written member | corrected member |
|---|---|---|---|---|---|---|
| main.c:395-419 | lineCounter returns one plus the number of newlines, and fails when there is none. The fgets loop then reads that many lines. | "a.pdf\n" gives a count of 2, and the second fgets fails with ERR_FGETS. "a.pdf" gives ERR_COUNT_LINES. Every batch file ending in a newline fails. | count the lines fgets can read, so that a final newline adds no line and a file that is not empty has at least one line; blank lines still count, so a file holding only "\n" gives the one path "\n" (Batch.BlankLineKept) | not executed | Batch.TrailingNewlineFails | Batch.ResolveBatch |
