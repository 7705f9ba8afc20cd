/**
 * Concrete runs of the per-file decision and of the whole loop, on detector
 * lines of the form `file --mime-type -b` prints.
 */
module Scenarios {
  import opened Wrappers
  import opened CString
  import opened Strtok
  import opened Detector
  import opened Matcher
  import opened Faults
  import opened Analysis
  import opened Memory

  /** A line holding neither 'r' nor 'c' marks neither a directory nor a failure. */
  lemma NoMarker(line: string)
    requires 'r' !in line && 'c' !in line
    ensures !Contains(line, "/directory") && !Contains(line, "cannot")
  {
    MissingCharNotContained(line, "/directory", 3);
    MissingCharNotContained(line, "cannot", 0);
  }

  /** A pdf file detected as application/pdf is OK. */
  lemma PdfIsOk()
    ensures Classify("a.pdf", "application/pdf") == Ok
  {
    assert "application/pdf" == "application" + ['/'] + "pdf";
    assert "a.pdf" == "a" + ['.'] + "pdf";
    assert !Contains("application/pdf", "/directory") by {
      MissingCharNotContained("application/pdf", "/directory", 3);
    }
    PdfLineNoFailure();
    ClassifyMime("a", "pdf", "application", "pdf");
  }

  /** "application/pdf" holds every letter of "cannot", but not the word. */
  lemma PdfLineNoFailure()
    ensures !Contains("application/pdf", "cannot")
  {
    var line := "application/pdf";
    assert !ContainsFrom(line, "cannot", 9);
    assert !ContainsFrom(line, "cannot", 6);
    assert !ContainsFrom(line, "cannot", 3);
  }

  /** A png file detected as image/png is OK. */
  lemma PngIsOk()
    ensures Classify("a.png", "image/png") == Ok
  {
    assert "image/png" == "image" + ['/'] + "png";
    assert "a.png" == "a" + ['.'] + "png";
    NoMarker("image/png");
    ClassifyMime("a", "png", "image", "png");
  }

  /** Plain text is not on the allow-list. */
  lemma TextIsUnsupported()
    ensures Classify("b.txt", "text/plain") == Unsupported
  {
    assert "text/plain" == "text" + ['/'] + "plain";
    assert "b.txt" == "b" + ['.'] + "txt";
    NoMarker("text/plain");
    assert "plain" !in ValidExt;
    ClassifyMime("b", "txt", "text", "plain");
  }

  /** A png file detected as a gif is a mismatch. */
  lemma PngAsGifIsMismatch()
    ensures Classify("a.png", "image/gif") == Mismatch
  {
    assert "image/gif" == "image" + ['/'] + "gif";
    assert "a.png" == "a" + ['.'] + "png";
    NoMarker("image/gif");
    ClassifyMime("a", "png", "image", "gif");
  }

  /** A jpeg subtype is OK for .jpg, for .jpeg and for any other extension too. */
  lemma JpegMatchesAnything()
    ensures Classify("photo.jpg", "image/jpeg") == Ok
    ensures Classify("photo.jpeg", "image/jpeg") == Ok
    ensures Classify("photo.pdf", "image/jpeg") == Ok
  {
    assert "image/jpeg" == "image" + ['/'] + "jpeg";
    assert "photo.jpg" == "photo" + ['.'] + "jpg";
    assert "photo.jpeg" == "photo" + ['.'] + "jpeg";
    assert "photo.pdf" == "photo" + ['.'] + "pdf";
    NoMarker("image/jpeg");
    ClassifyMime("photo", "jpg", "image", "jpeg");
    ClassifyMime("photo", "jpeg", "image", "jpeg");
    ClassifyMime("photo", "pdf", "image", "jpeg");
  }

  /** A path without '.' has no extension, whatever its type. */
  lemma NoDotIsNoExtension()
    ensures Classify("noext", "image/png") == NoExtension
  {
    NoMarker("image/png");
    assert Extension("noext") == None by {
      ExtensionShape("noext");
    }
  }

  /** The extension is cut at the last '.' of the whole path, even one in a directory name. */
  lemma DotInDirectoryName()
    ensures Classify("dir.v2/readme", "text/plain") == Unsupported
  {
    assert "dir.v2/readme" == "dir" + ['.'] + "v2/readme";
    assert "text/plain" == "text" + ['/'] + "plain";
    NoMarker("text/plain");
    assert "plain" !in ValidExt;
    ClassifyMime("dir", "v2/readme", "text", "plain");
  }

  /** The extension of that path runs from the '.' in the directory name to the end. */
  lemma DirectoryDotExtension()
    ensures Extension("dir.v2/readme") == Some("v2/readme")
  {
    assert "dir.v2/readme" == "dir" + ['.'] + "v2/readme";
    ExtensionOfJoin("dir", "v2/readme");
  }

  /** The detector's type for a directory makes the file be skipped. */
  lemma DirectoryIsSkipped()
    ensures Classify("photos", "inode/directory") == SkippedDirectory
  {
    assert "inode/directory" == "inode" + "/directory";
    DirectoryLineSkipped("photos", "inode");
  }

  /** Any line holding "/directory" after a major type is skipped. */
  lemma DirectoryLineSkipped(path: string, major: string)
    ensures Classify(path, major + "/directory") == SkippedDirectory
  {
    var line := major + "/directory";
    assert line[|major|..|major| + |"/directory"|] == "/directory";
    ContainsIff(line, "/directory");
    assert OccursAt(line, "/directory", |major|);
  }

  /** A detector message starting with "cannot" and holding no '/' is an error. */
  lemma CannotIsError(path: string, message: string)
    requires '/' !in message
    ensures Classify(path, "cannot" + message) == Error
  {
    var line := "cannot" + message;
    assert '/' !in line;
    MissingCharNotContained(line, "/directory", 0);
    ContainsIff(line, "cannot");
    assert OccursAt(line, "cannot", 0);
  }

  /** Two detector lines, each ended by a newline, are the two tokens. */
  lemma TwoLineOutput(a: string, b: string)
    requires a != [] && b != [] && '\n' !in a && '\n' !in b
    ensures Tokens(a + ['\n'] + (b + ['\n']), '\n') == [a, b]
  {
    TokensOfLine(b, '\n', []);
    assert b + ['\n'] + [] == b + ['\n'];
    TokensOfLine(a, '\n', b + ['\n']);
  }

  /** Two files and a two-line detector output: file 1 is judged by line 1, file 2 by line 2. */
  lemma TwoFileSummary(p1: string, p2: string, a: string, b: string)
    requires a != [] && b != [] && '\n' !in a && '\n' !in b
    ensures Summary([p1, p2], SplitLines(2, a + ['\n'] + (b + ['\n']))) == Success(Tally([Entry(p1, a), Entry(p2, b)]))
  {
    TwoLineOutput(a, b);
    AnalyzeOutcome([p1, p2], a + ['\n'] + (b + ['\n']));
    assert seq(2, i requires 0 <= i < 2 => Entry([p1, p2][i], [a, b][i])) == [Entry(p1, a), Entry(p2, b)];
  }

  /** Two files and two detector lines: one OK, one unsupported, none skipped. */
  lemma TwoFileRun()
    ensures Summary(["a.png", "b.txt"], SplitLines(2, "image/png" + ['\n'] + ("text/plain" + ['\n']))) ==
      Success(Counters(2, 1, 0, 0, 1, 0))
  {
    TwoFileSummary("a.png", "b.txt", "image/png", "text/plain");
    TwoEntryTally();
  }

  /** An OK file and an unsupported one: two counted, one in each category. */
  lemma TwoEntryTally()
    ensures Tally([Entry("a.png", "image/png"), Entry("b.txt", "text/plain")]) == Counters(2, 1, 0, 0, 1, 0)
  {
    var first := [Entry("a.png", "image/png")];
    var es := first + [Entry("b.txt", "text/plain")];
    assert es == [Entry("a.png", "image/png"), Entry("b.txt", "text/plain")];
    assert es[..1] == first && first[..0] == [];
    PngIsOk();
    TextIsUnsupported();
    assert Tally(first) == Record(Zero, Ok);
    assert Tally(es) == Record(Tally(first), Unsupported);
  }

  /** One more file than detector lines fails at the file without a line. */
  lemma MissingLineRun()
    ensures Summary(["a.png", "b.txt"], SplitLines(2, "image/png" + ['\n'])) == Failure(MissingLine(1))
  {
    TokensOfLine("image/png", '\n', []);
    assert "image/png" + ['\n'] + [] == "image/png" + ['\n'];
    AnalyzeOutcome(["a.png", "b.txt"], "image/png" + ['\n']);
  }

  /** On one buffer the low half receives the high half reversed; the high half keeps its bytes. */
  lemma SharedBufferSwap()
    ensures SwapInPlace([1, 2, 3, 4], 4) == [4, 3, 3, 4]
  {
  }
}
