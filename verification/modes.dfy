/**
 * Whole runs of the directory and batch modes: resolve the input list, cut
 * the detector's output into one line per file, and run the per-file loop.
 */
module Modes {
  import opened Wrappers
  import opened Faults
  import opened Detector
  import opened Analysis
  import opened Directory
  import opened CString
  import opened Batch

  /** Directory mode: ERR_OPEN_DIR, or the summary over the entries of the listing. */
  method DirectoryRun(dirArg: string, listing: Option<seq<string>>, output: string) returns (r: Result<Counters, Fault>)
    ensures listing.None? ==> r == Failure(OpenDirFailed)
    ensures listing.Some? ==>
      var files := EntryPaths(NormalizeDir(dirArg), listing.value);
      r == Summary(files, SplitLines(|files|, output))
    ensures r.Success? ==> Balanced(r.value)
  {
    var files := ResolveDirectory(dirArg, listing);
    if files.Failure? {
      return Failure(files.error);
    }
    r := Analyze(files.value, output);
  }

  /**
   * Batch mode with the corrected line count: ERR_OPEN_FILE, ERR_COUNT_LINES
   * for an empty file, or the summary over every line of the file.
   */
  method BatchRun(contents: Option<string>, output: string) returns (r: Result<Counters, Fault>)
    ensures contents.None? ==> r == Failure(OpenFileFailed)
    ensures contents == Some([]) ==> r == Failure(CountLinesFailed)
    ensures contents.Some? && contents.value != [] ==>
      var files := Paths(contents.value);
      r == Summary(files, SplitLines(|files|, output))
    ensures r.Success? ==> Balanced(r.value)
  {
    var files := ResolveBatch(contents);
    if files.Failure? {
      return Failure(files.error);
    }
    r := Analyze(files.value, output);
  }

  /**
   * A batch run has one path per newline, plus one for text after the last
   * newline, and succeeds exactly when the detector gave at least that many lines.
   */
  lemma BatchRunCounts(contents: string, output: string)
    requires contents != []
    ensures |Paths(contents)| ==
      Occurrences(contents, '\n') + (if contents[|contents| - 1] != '\n' then 1 else 0)
    ensures Summary(Paths(contents), SplitLines(|Paths(contents)|, output)).Success? <==>
      |Paths(contents)| <= |Strtok.Tokens(output, '\n')|
  {
    BatchLinesCount(contents);
    AnalyzeOutcome(Paths(contents), output);
  }
}
