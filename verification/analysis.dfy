/**
 * The per-file loop of checkFile (main.c:274-357) and its six summary
 * counters (main.c:92, 313-314, 329-330, 341-347, 354-355), with the
 * splitting of the detector output in front of it (main.c:225-232).
 */
module Analysis {
  import opened Wrappers
  import opened Faults
  import opened Strtok
  import opened Detector
  import opened Matcher

  /** countTotal, countOK, countMis, countNoExt, countUnSupp and countErr. */
  datatype Counters = Counters(total: nat, ok: nat, mismatch: nat, noExt: nat, unsupported: nat, error: nat)

  const Zero := Counters(0, 0, 0, 0, 0, 0)

  /** The summary invariant: every analysed file is in exactly one category. */
  predicate Balanced(c: Counters)
  {
    c.total == c.ok + c.mismatch + c.noExt + c.unsupported + c.error
  }

  /**
   * The counter update for one decided file: a skipped directory changes
   * nothing; any other outcome adds one to its own counter and to the total.
   */
  function Record(c: Counters, o: Outcome): (r: Counters)
    ensures Balanced(c) ==> Balanced(r)
    ensures r == c <==> o == SkippedDirectory
  {
    match o
    case SkippedDirectory => c
    case Error => c.(error := c.error + 1, total := c.total + 1)
    case NoExtension => c.(noExt := c.noExt + 1, total := c.total + 1)
    case Ok => c.(ok := c.ok + 1, total := c.total + 1)
    case Mismatch => c.(mismatch := c.mismatch + 1, total := c.total + 1)
    case Unsupported => c.(unsupported := c.unsupported + 1, total := c.total + 1)
  }

  /** A file name together with the detector line that belongs to it. */
  datatype Entry = Entry(path: string, line: string)

  function Outcomes(es: seq<Entry>): (os: seq<Outcome>)
    ensures |os| == |es|
  {
    seq(|es|, i requires 0 <= i < |es| => Classify(es[i].path, es[i].line))
  }

  /** The counters after the loop has gone through `es` in order. */
  function Tally(es: seq<Entry>): Counters
    decreases |es|
  {
    if es == [] then Zero
    else Record(Tally(es[..|es| - 1]), Classify(es[|es| - 1].path, es[|es| - 1].line))
  }

  /** `c` counts the outcomes in `m`, which come from `n` files. */
  ghost predicate CountsOf(c: Counters, m: multiset<Outcome>, n: nat)
  {
    c.ok == m[Ok] && c.mismatch == m[Mismatch] && c.noExt == m[NoExtension] &&
    c.unsupported == m[Unsupported] && c.error == m[Error] &&
    c.total + m[SkippedDirectory] == n && Balanced(c)
  }

  lemma RecordCounts(c: Counters, m: multiset<Outcome>, n: nat, o: Outcome)
    requires CountsOf(c, m, n)
    ensures CountsOf(Record(c, o), m + multiset{o}, n + 1)
  {
    AddOutcome(m, o);
    RecordFields(c, o);
  }

  /** Adding one outcome to a multiset raises its count by one and leaves the others. */
  lemma AddOutcome(m: multiset<Outcome>, o: Outcome)
    ensures var m' := m + multiset{o};
      m'[SkippedDirectory] == m[SkippedDirectory] + (if o == SkippedDirectory then 1 else 0) &&
      m'[Error] == m[Error] + (if o == Error then 1 else 0) &&
      m'[NoExtension] == m[NoExtension] + (if o == NoExtension then 1 else 0) &&
      m'[Ok] == m[Ok] + (if o == Ok then 1 else 0) &&
      m'[Mismatch] == m[Mismatch] + (if o == Mismatch then 1 else 0) &&
      m'[Unsupported] == m[Unsupported] + (if o == Unsupported then 1 else 0)
  {
  }

  /** Field by field: the outcome's own counter and the total go up by one, unless it is a skipped directory. */
  lemma RecordFields(c: Counters, o: Outcome)
    ensures Record(c, o).ok == c.ok + (if o == Ok then 1 else 0)
    ensures Record(c, o).mismatch == c.mismatch + (if o == Mismatch then 1 else 0)
    ensures Record(c, o).noExt == c.noExt + (if o == NoExtension then 1 else 0)
    ensures Record(c, o).unsupported == c.unsupported + (if o == Unsupported then 1 else 0)
    ensures Record(c, o).error == c.error + (if o == Error then 1 else 0)
    ensures Record(c, o).total == c.total + (if o == SkippedDirectory then 0 else 1)
  {
  }

  /**
   * Each counter is the number of files with that outcome; the total is the
   * number of files that were not skipped as directories, and the counters
   * stay balanced.
   */
  lemma {:induction false} TallyCounts(es: seq<Entry>)
    ensures CountsOf(Tally(es), multiset(Outcomes(es)), |es|)
    decreases |es|
  {
    if es != [] {
      var n := |es| - 1;
      var o := Classify(es[n].path, es[n].line);
      TallyCounts(es[..n]);
      RecordCounts(Tally(es[..n]), multiset(Outcomes(es[..n])), n, o);
      OutcomesSnoc(es);
    }
  }

  lemma OutcomesSnoc(es: seq<Entry>)
    requires es != []
    ensures var n := |es| - 1;
      multiset(Outcomes(es)) == multiset(Outcomes(es[..n])) + multiset{Classify(es[n].path, es[n].line)}
  {
    var n := |es| - 1;
    assert Outcomes(es) == Outcomes(es[..n]) + [Classify(es[n].path, es[n].line)];
  }

  /** The first position whose line is NULL, if any. */
  function FirstMissing(lines: seq<Option<string>>): (k: Option<nat>)
    ensures k.None? <==> forall j :: 0 <= j < |lines| ==> lines[j].Some?
    ensures k.Some? ==>
      (k.value < |lines| && lines[k.value].None? && forall j :: 0 <= j < k.value ==> lines[j].Some?)
  {
    if lines == [] then None
    else if lines[0].None? then Some(0)
    else match FirstMissing(lines[1..])
      case None => None
      case Some(k) => Some(k + 1)
  }

  /** Files paired with their lines, when every file has one. */
  function Entries(paths: seq<string>, lines: seq<Option<string>>): (es: seq<Entry>)
    requires |paths| <= |lines| && forall j :: 0 <= j < |paths| ==> lines[j].Some?
    ensures |es| == |paths|
  {
    seq(|paths|, i requires 0 <= i < |paths| => Entry(paths[i], lines[i].value))
  }

  /**
   * What the loop produces for the files and the lines lineSplit gave them:
   * the counters, or a failure at the first file whose line is NULL (the
   * source hands that NULL to strstr).
   */
  function Summary(paths: seq<string>, lines: seq<Option<string>>): Result<Counters, Fault>
    requires |paths| <= |lines|
  {
    match FirstMissing(lines[..|paths|])
    case Some(k) => Failure(MissingLine(k))
    case None => Success(Tally(Entries(paths, lines)))
  }

  /** The per-file loop, with the six counters as local variables. */
  method Summarize(filenames: seq<string>, linesPipe: seq<Option<string>>) returns (r: Result<Counters, Fault>)
    requires |filenames| <= |linesPipe|
    ensures r == Summary(filenames, linesPipe)
    ensures r.Success? ==> Balanced(r.value)
  {
    var countMis, countOK, countNoExt, countErr, countTotal, countUnSupp := 0, 0, 0, 0, 0, 0;
    for pos := 0 to |filenames|
      invariant forall j :: 0 <= j < pos ==> linesPipe[j].Some?
      invariant Counters(countTotal, countOK, countMis, countNoExt, countUnSupp, countErr)
        == Tally(Entries(filenames[..pos], linesPipe))
      invariant countTotal == countOK + countMis + countNoExt + countUnSupp + countErr
    {
      if linesPipe[pos].None? {
        FirstMissingAt(linesPipe[..|filenames|], pos);
        return Failure(MissingLine(pos));
      }
      var line := linesPipe[pos].value;
      TallyStep(filenames, linesPipe, pos);
      match Classify(filenames[pos], line) {
        case SkippedDirectory =>
        case Error =>
          countErr := countErr + 1;
          countTotal := countTotal + 1;
        case NoExtension =>
          countNoExt := countNoExt + 1;
          countTotal := countTotal + 1;
        case Ok =>
          countOK := countOK + 1;
          countTotal := countTotal + 1;
        case Mismatch =>
          countMis := countMis + 1;
          countTotal := countTotal + 1;
        case Unsupported =>
          countUnSupp := countUnSupp + 1;
          countTotal := countTotal + 1;
      }
    }
    assert filenames[..|filenames|] == filenames;
    r := Success(Counters(countTotal, countOK, countMis, countNoExt, countUnSupp, countErr));
  }

  /** The first NULL line is found where it is. */
  lemma FirstMissingAt(lines: seq<Option<string>>, pos: nat)
    requires pos < |lines| && lines[pos].None? && forall j :: 0 <= j < pos ==> lines[j].Some?
    ensures FirstMissing(lines) == Some(pos)
  {
  }

  /** One more file adds its outcome to the counters of the files before it. */
  lemma TallyStep(paths: seq<string>, lines: seq<Option<string>>, pos: nat)
    requires pos < |paths| <= |lines| && forall j :: 0 <= j <= pos ==> lines[j].Some?
    ensures Tally(Entries(paths[..pos + 1], lines)) ==
      Record(Tally(Entries(paths[..pos], lines)), Classify(paths[pos], lines[pos].value))
  {
    assert Entries(paths[..pos + 1], lines)[..pos] == Entries(paths[..pos], lines);
  }

  /**
   * The file-list and directory modes after the detector has run: the
   * output is cut into one line per file and the loop runs over them.
   */
  method Analyze(filenames: seq<string>, output: string) returns (r: Result<Counters, Fault>)
    ensures r == Summary(filenames, SplitLines(|filenames|, output))
    ensures r.Success? ==> Balanced(r.value)
  {
    var max := |filenames|;
    var linesPipe := new Option<string>[if max == 0 then 1 else max](_ => None);
    LineSplit(max, output, linesPipe);
    assert linesPipe[..max] == SplitLines(max, output);
    r := Summarize(filenames, linesPipe[..max]);
  }

  /**
   * The run fails exactly when the detector gave fewer non-empty lines than
   * there are files, and then at the first file without a line; otherwise
   * file i is judged by line i, and the total counts every file that was
   * not a directory.
   */
  lemma AnalyzeOutcome(filenames: seq<string>, output: string)
    ensures var ts := Tokens(output, '\n');
      Summary(filenames, SplitLines(|filenames|, output)) ==
        if |ts| < |filenames| then Failure(MissingLine(|ts|))
        else Success(Tally(seq(|filenames|, i requires 0 <= i < |filenames| => Entry(filenames[i], ts[i]))))
    ensures var ts := Tokens(output, '\n');
      |filenames| <= |ts| ==>
        var es := seq(|filenames|, i requires 0 <= i < |filenames| => Entry(filenames[i], ts[i]));
        Tally(es).total == |filenames| - multiset(Outcomes(es))[SkippedDirectory]
  {
    var ts := Tokens(output, '\n');
    var lines := SplitLines(|filenames|, output);
    assert lines[..|filenames|] == lines;
    if |ts| < |filenames| {
      assert lines[|ts|].None?;
      assert FirstMissing(lines) == Some(|ts|);
    } else {
      var es := seq(|filenames|, i requires 0 <= i < |filenames| => Entry(filenames[i], ts[i]));
      assert Entries(filenames, lines) == es;
      TallyCounts(es);
    }
  }
}
