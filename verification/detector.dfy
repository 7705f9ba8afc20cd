/**
 * Parsing of the detector's captured output: cutting it into one line per
 * file (lineSplit, main.c:373-380) and taking the MIME subtype out of a line
 * (main.c:319-324).
 */
module Detector {
  import opened Wrappers
  import opened Strtok

  /** The tokens left after the first `i` have been taken. */
  function Drop(ts: seq<string>, i: nat): seq<string>
  {
    if i <= |ts| then ts[i..] else []
  }

  /**
   * lineSplit: slot 0 gets the first strtok token of `buffer` over "\n" and
   * slots 1..max-1 the following ones; once the lines run out the slots get
   * NULL. Slot 0 is written even when `max` is 0, as in the source.
   */
  method LineSplit(max: nat, buffer: string, linesPipe: array<Option<string>>)
    requires 1 <= linesPipe.Length && max <= linesPipe.Length
    modifies linesPipe
    ensures forall i :: 0 <= i < max ==> linesPipe[i] == TokenAt(buffer, '\n', i)
    ensures linesPipe[0] == TokenAt(buffer, '\n', 0)
    ensures forall i :: 1 <= i < linesPipe.Length && max <= i ==> linesPipe[i] == old(linesPipe[i])
  {
    ghost var ts := Tokens(buffer, '\n');
    var rest := buffer;
    var i := 0;
    while i == 0 || i < max
      invariant 0 <= i <= linesPipe.Length && (i <= max || i == 1)
      invariant forall k :: 0 <= k < i ==> linesPipe[k] == TokenAt(buffer, '\n', k)
      invariant forall k :: i <= k < linesPipe.Length ==> linesPipe[k] == old(linesPipe[k])
      invariant Tokens(rest, '\n') == Drop(ts, i)
      decreases linesPipe.Length - i
    {
      NextTokenTokens(rest, '\n');
      match NextToken(rest, '\n') {
        case None =>
          linesPipe[i] := None;
        case Some((line, after)) =>
          linesPipe[i] := Some(line);
          rest := after;
      }
      i := i + 1;
    }
  }

  /** The lines lineSplit hands to the per-file loop, as a value. */
  function SplitLines(max: nat, buffer: string): (lines: seq<Option<string>>)
    ensures |lines| == max
  {
    seq(max, i requires 0 <= i < max => TokenAt(buffer, '\n', i))
  }

  /**
   * The slots hold the successive non-empty runs of non-newline characters,
   * in order; no line holds a newline; the slots past the last run are NULL.
   */
  lemma SplitLinesShape(max: nat, buffer: string)
    ensures forall i :: 0 <= i < max ==>
      (SplitLines(max, buffer)[i].Some? <==> i < |Tokens(buffer, '\n')|)
    ensures forall i :: 0 <= i < max && SplitLines(max, buffer)[i].Some? ==>
      SplitLines(max, buffer)[i].value == Tokens(buffer, '\n')[i] &&
      SplitLines(max, buffer)[i].value != [] && '\n' !in SplitLines(max, buffer)[i].value
    ensures Join(Split(buffer, '\n'), '\n') == buffer
    ensures Tokens(buffer, '\n') == NonEmpty(Split(buffer, '\n'))
  {
    TokensWellFormed(buffer, '\n');
    JoinSplit(buffer, '\n');
    TokensAreNonEmptyPieces(buffer, '\n');
  }

  /**
   * The subtype: strtok over "/" is called twice on the line and the second
   * token is kept (the first is the MIME major type). NULL when there is none.
   */
  function Subtype(line: string): (r: Option<string>)
    ensures r.Some? ==> r.value != [] && '/' !in r.value
  {
    match NextToken(line, '/')
    case None => None
    case Some((_, rest)) =>
      match NextToken(rest, '/')
      case None => None
      case Some((token, _)) => Some(token)
  }

  /** The subtype is the second maximal run of non-'/' characters, and has no '/'. */
  lemma SubtypeIsSecondToken(line: string)
    ensures Subtype(line) == TokenAt(line, '/', 1)
    ensures Subtype(line).Some? ==> Subtype(line).value != [] && '/' !in Subtype(line).value
  {
    NextTokenTokens(line, '/');
    if NextToken(line, '/').Some? {
      NextTokenTokens(NextToken(line, '/').value.1, '/');
    }
  }

  /** For a line "type/subtype" the subtype is the text after the '/'. */
  lemma SubtypeOfMime(major: string, sub: string)
    requires major != [] && sub != [] && '/' !in major && '/' !in sub
    ensures Subtype(major + ['/'] + sub) == Some(sub)
  {
    SubtypeIsSecondToken(major + ['/'] + sub);
    TokensOfLine(major, '/', sub);
    TokensOfPlain(sub, '/');
  }
}
