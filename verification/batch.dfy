/**
 * Batch mode's input list: lineCounter (main.c:395-419) sizes the list and
 * the fgets loop (main.c:235-253) reads that many lines of the batch file,
 * dropping each line's newline. The file's contents are an input.
 */
module Batch {
  import opened Wrappers
  import opened Faults
  import opened CString
  import opened Strtok

  /** What lineCounter returns: one more than the number of newlines, or ERR_COUNT_LINES when there are none. */
  function LineCount(contents: string): (r: Result<nat, Fault>)
    ensures r.Success? <==> '\n' in contents
    ensures r.Success? ==> r.value >= 2
  {
    if Occurrences(contents, '\n') == 0 then Failure(CountLinesFailed)
    else Success(1 + Occurrences(contents, '\n'))
  }

  /** lineCounter: a getc loop that starts at one and adds one per newline. */
  method LineCounter(contents: string) returns (r: Result<nat, Fault>)
    ensures r == LineCount(contents)
    ensures r.Success? <==> '\n' in contents
    ensures r.Success? ==> r.value >= 2
  {
    var countLines := 1;
    for i := 0 to |contents|
      invariant countLines == 1 + Occurrences(contents[..i], '\n')
    {
      assert contents[..i + 1] == contents[..i] + [contents[i]];
      if contents[i] == '\n' {
        countLines := countLines + 1;
      }
    }
    assert contents[..|contents|] == contents;
    if countLines == 1 {
      return Failure(CountLinesFailed);
    }
    r := Success(countLines);
  }

  /**
   * One fgets call on the unread rest: NULL at end of file, else the text up
   * to and including the first newline, or up to the end when there is none.
   */
  function FGets(rest: string): (r: Option<(string, string)>)
    ensures r.None? <==> rest == []
    ensures r.Some? ==> r.value.0 != [] && rest == r.value.0 + r.value.1
    ensures r.Some? ==> FGetsLine(r.value.0, r.value.1)
  {
    if rest == [] then None
    else
      var n := Span(rest, '\n');
      if n == |rest| then
        Some((rest, []))
      else
        assert rest == rest[..n + 1] + rest[n + 1..];
        assert rest[..n + 1][..n] == rest[..n];
        Some((rest[..n + 1], rest[n + 1..]))
  }

  /**
   * The shape of a line fgets returns, given what is left after it: a newline
   * can only be its last character, and it ends with one unless the file ends.
   */
  predicate FGetsLine(line: string, after: string)
  {
    line != [] && '\n' !in line[..|line| - 1] && (after != [] ==> line[|line| - 1] == '\n')
  }

  /** The lines successive fgets calls return until end of file. */
  function BatchLines(contents: string): seq<string>
    decreases |contents|
  {
    match FGets(contents)
    case None => []
    case Some((line, rest)) => [line] + BatchLines(rest)
  }

  function Concat(lines: seq<string>): string
  {
    if lines == [] then [] else lines[0] + Concat(lines[1..])
  }

  /** Reading line by line loses nothing: the lines put together are the whole file. */
  lemma {:induction false} BatchLinesConcat(contents: string)
    ensures Concat(BatchLines(contents)) == contents
    decreases |contents|
  {
    match FGets(contents)
    case None =>
    case Some((line, rest)) =>
      BatchLinesConcat(rest);
      assert BatchLines(contents)[1..] == BatchLines(rest);
  }

  /**
   * There is one line per newline, plus one for text after the last
   * newline: a final newline ends the last line and starts no new one.
   */
  lemma {:induction false} BatchLinesCount(contents: string)
    ensures |BatchLines(contents)| ==
      Occurrences(contents, '\n') + (if contents != [] && contents[|contents| - 1] != '\n' then 1 else 0)
    decreases |contents|
  {
    if contents != [] {
      var n := Span(contents, '\n');
      if n == |contents| {
        LastLineCount(contents);
      } else {
        var text, rest := contents[..n], contents[n + 1..];
        assert contents == text + ['\n'] + rest;
        assert |BatchLines(contents)| == 1 + |BatchLines(rest)| by {
          BatchLinesStep(contents);
        }
        BatchLinesCount(rest);
        NewlineFree(text);
        OccurrencesOfLine(text, rest);
      }
    }
  }

  /** A file without newline is one line. */
  lemma LastLineCount(contents: string)
    requires contents != [] && Span(contents, '\n') == |contents|
    ensures |BatchLines(contents)| == 1 && Occurrences(contents, '\n') == 0
    ensures contents[|contents| - 1] != '\n'
  {
    NewlineFree(contents);
    PlainLine(contents);
  }

  /** The newlines of a line ended by one, followed by more text. */
  lemma OccurrencesOfLine(text: string, rest: string)
    requires '\n' !in text
    ensures Occurrences(text + ['\n'] + rest, '\n') == 1 + Occurrences(rest, '\n')
    ensures var s := text + ['\n'] + rest; s[|s| - 1] == if rest == [] then '\n' else rest[|rest| - 1]
  {
    assert multiset(text + ['\n'] + rest) == multiset(text) + multiset{'\n'} + multiset(rest);
  }

  /** One fgets call takes the first line off the lines still to read. */
  lemma BatchLinesStep(rest: string)
    requires rest != []
    ensures BatchLines(rest) == [FGets(rest).value.0] + BatchLines(FGets(rest).value.1)
  {
  }

  /** A text without newline is read by one fgets call, or none when empty. */
  lemma PlainLine(text: string)
    requires '\n' !in text
    ensures BatchLines(text) == if text == [] then [] else [text]
  {
    if text != [] {
      SpanOfJoin(text, '\n', []);
      assert text + [] == text;
    }
  }

  /** A line ended by a newline is read by one fgets call. */
  lemma NewlineEndedLine(text: string)
    requires '\n' !in text
    ensures BatchLines(text + ['\n']) == [text + ['\n']]
  {
    var s := text + ['\n'];
    SpanOfJoin(text, '\n', ['\n']);
    assert s[..|text| + 1] == s && s[|text| + 1..] == [];
  }

  lemma NewlineFree(text: string)
    requires forall i :: 0 <= i < |text| ==> text[i] != '\n'
    ensures '\n' !in text && Occurrences(text, '\n') == 0
  {
  }

  /**
   * strtok(line, "\n") on an fgets line: the newline that ends it becomes the
   * terminator; a line that is only "\n" holds no token and is left as it is.
   */
  function StripNewline(line: string): (r: string)
    ensures |line| - 1 <= |r| <= |line| && r == line[..|r|]
    ensures |r| < |line| ==> line == r + ['\n'] && r != []
  {
    if |line| > 1 && line[|line| - 1] == '\n' then line[..|line| - 1] else line
  }

  /**
   * StripNewline is strtok's first token on an fgets line (a newline can only
   * end it), or the line itself when strtok returns NULL.
   */
  lemma StripNewlineIsStrtok(line: string)
    requires line != [] && '\n' !in line[..|line| - 1]
    ensures StripNewline(line) == match NextToken(line, '\n') case None => line case Some((t, _)) => t
  {
    var body := line[..|line| - 1];
    if line == ['\n'] {
      assert SkipLeading(line, '\n') == SkipLeading([], '\n');
    } else {
      assert line[0] != '\n' by {
        if |line| > 1 {
          assert line[0] == body[0];
        }
      }
      assert SkipLeading(line, '\n') == line;
      if line[|line| - 1] == '\n' {
        assert line == body + ['\n'];
        SpanOfJoin(body, '\n', ['\n']);
      } else {
        assert line == body + [line[|line| - 1]];
        assert '\n' !in line;
        assert line + [] == line;
        SpanOfJoin(line, '\n', []);
      }
    }
  }

  /** Every line of the file with its newline stripped, in file order. */
  function Paths(contents: string): (ps: seq<string>)
    ensures |ps| == |BatchLines(contents)|
  {
    seq(|BatchLines(contents)|, i requires 0 <= i < |BatchLines(contents)| => StripNewline(BatchLines(contents)[i]))
  }

  /** A newline can only end a line, and every line but the last ends with one. */
  predicate WellFormedLines(lines: seq<string>)
  {
    forall i :: 0 <= i < |lines| ==>
      lines[i] != [] && '\n' !in lines[i][..|lines[i]| - 1] &&
      (i + 1 < |lines| ==> lines[i][|lines[i]| - 1] == '\n')
  }

  /** Every line fgets reads from the file has the shape of an fgets line. */
  lemma {:induction false} BatchLinesWellFormed(contents: string)
    ensures WellFormedLines(BatchLines(contents))
    decreases |contents|
  {
    match FGets(contents)
    case None =>
    case Some((line, rest)) =>
      BatchLinesWellFormed(rest);
      var lines := BatchLines(contents);
      assert lines == [line] + BatchLines(rest);
      forall i | 0 <= i < |lines|
        ensures lines[i] != [] && '\n' !in lines[i][..|lines[i]| - 1]
        ensures i + 1 < |lines| ==> lines[i][|lines[i]| - 1] == '\n'
      {
        if i == 0 {
          if 1 < |lines| {
            assert rest != [];
          }
        } else {
          assert lines[i] == BatchLines(rest)[i - 1];
        }
      }
  }

  /** Path i is strtok's first token of line i, or line i itself when strtok returns NULL. */
  lemma PathsAreTokens(contents: string, i: nat)
    requires i < |Paths(contents)|
    ensures Paths(contents)[i] ==
      match NextToken(BatchLines(contents)[i], '\n')
      case None => BatchLines(contents)[i]
      case Some((t, _)) => t
  {
    BatchLinesWellFormed(contents);
    StripNewlineIsStrtok(BatchLines(contents)[i]);
  }

  /** The result of reading `max` lines: the stripped lines, or ERR_FGETS when the file has fewer. */
  function BatchRead(contents: string, max: nat): Result<seq<string>, Fault>
  {
    var lines := BatchLines(contents);
    if max <= |lines| then Success(Paths(contents)[..max])
    else Failure(FgetsFailed)
  }

  /** Blank lines are kept: a file holding only a newline is one path, the newline itself. */
  lemma BlankLineKept()
    ensures BatchLines("\n") == ["\n"] && Paths("\n") == ["\n"]
    ensures CountBatchLines("\n") == Success(1)
  {
    NewlineEndedLine([]);
    assert [] + ['\n'] == "\n";
  }

  /** The fgets loop of main.c:242-250. */
  method ReadBatch(contents: string, max: nat) returns (r: Result<seq<string>, Fault>)
    ensures r == BatchRead(contents, max)
  {
    ghost var lines := BatchLines(contents);
    var filenames: seq<string> := [];
    var rest := contents;
    for i := 0 to max
      invariant i <= |lines| && BatchLines(rest) == lines[i..]
      invariant filenames == Paths(contents)[..i]
    {
      match FGets(rest) {
        case None =>
          return Failure(FgetsFailed);
        case Some((line, after)) =>
          BatchLinesStep(rest);
          assert lines[i..] == [line] + BatchLines(after);
          assert lines[i] == line && lines[i + 1..] == BatchLines(after);
          assert Paths(contents)[..i + 1] == Paths(contents)[..i] + [StripNewline(line)];
          filenames := filenames + [StripNewline(line)];
          rest := after;
      }
    }
    r := Success(filenames);
  }

  /**
   * The batch list as the source builds it: lineCounter sizes it and the
   * fgets loop fills it.
   */
  function BatchPathsAsWritten(contents: string): Result<seq<string>, Fault>
  {
    match LineCount(contents)
    case Failure(f) => Failure(f)
    case Success(max) => BatchRead(contents, max)
  }

  /** Every batch file that ends with a newline makes the run fail with ERR_FGETS. */
  lemma TrailingNewlineFails(contents: string)
    requires contents != [] && contents[|contents| - 1] == '\n'
    ensures BatchPathsAsWritten(contents) == Failure(FgetsFailed)
  {
    BatchLinesCount(contents);
    assert contents[|contents| - 1] in contents;
  }

  /** A batch file that holds one path and no newline is rejected as having no lines. */
  lemma SinglePathRejected(contents: string)
    requires contents != [] && '\n' !in contents
    ensures BatchPathsAsWritten(contents) == Failure(CountLinesFailed)
    ensures BatchLines(contents) == [contents]
  {
    PlainLine(contents);
  }

  /** The first input that shows it: "a.pdf\n" lists one file, and the run fails with ERR_FGETS. */
  lemma OnePathWithNewline()
    ensures BatchLines("a.pdf\n") == ["a.pdf\n"] && BatchPathsAsWritten("a.pdf\n") == Failure(FgetsFailed)
  {
    assert "a.pdf\n" == "a.pdf" + ['\n'];
    NewlineEndedLine("a.pdf");
    TrailingNewlineFails("a.pdf\n");
  }

  /** The second: "a.pdf" lists one file, and the run fails with ERR_COUNT_LINES. */
  lemma OnePathWithoutNewline()
    ensures BatchLines("a.pdf") == ["a.pdf"] && BatchPathsAsWritten("a.pdf") == Failure(CountLinesFailed)
  {
    SinglePathRejected("a.pdf");
  }

  /** The intended count: the number of lines fgets can read, failing only for an empty file. */
  function CountBatchLines(contents: string): (r: Result<nat, Fault>)
    ensures r.Failure? <==> contents == []
    ensures r.Success? ==> r.value == |BatchLines(contents)| && r.value >= 1
  {
    var n := |BatchLines(contents)|;
    if n == 0 then Failure(CountLinesFailed) else Success(n)
  }

  /**
   * Batch mode's resolver with the intended count: ERR_OPEN_FILE when the
   * file cannot be opened, ERR_COUNT_LINES when it is empty, else every line.
   */
  method ResolveBatch(contents: Option<string>) returns (r: Result<seq<string>, Fault>)
    ensures contents.None? ==> r == Failure(OpenFileFailed)
    ensures contents.Some? && contents.value == [] ==> r == Failure(CountLinesFailed)
    ensures contents.Some? && contents.value != [] ==> r == Success(Paths(contents.value))
  {
    if contents.None? {
      return Failure(OpenFileFailed);
    }
    var count := CountBatchLines(contents.value);
    if count.Failure? {
      return Failure(count.error);
    }
    r := ReadBatch(contents.value, count.value);
    assert Paths(contents.value)[..count.value] == Paths(contents.value);
  }

  /** Where the file holds a newline but does not end with one, the source and the intended count agree. */
  lemma CountsAgree(contents: string)
    requires '\n' in contents && contents[|contents| - 1] != '\n'
    ensures LineCount(contents) == CountBatchLines(contents)
    ensures BatchPathsAsWritten(contents) == BatchRead(contents, |BatchLines(contents)|)
  {
    BatchLinesCount(contents);
    assert contents != [] && Occurrences(contents, '\n') != 0;
    assert LineCount(contents) == Success(|BatchLines(contents)|);
  }
}
