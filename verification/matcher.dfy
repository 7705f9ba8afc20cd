/**
 * The per-file decision of checkFile's main loop (main.c:290-356): the
 * extension, the allow-list `validExt` (main.c:53-60), `extMatch`
 * (main.c:383-392) and the outcome, decided in a fixed priority order.
 */
module Matcher {
  import opened Wrappers
  import opened CString
  import opened Strtok
  import opened Detector

  /** The outcome of one file; all but SkippedDirectory are counted in the summary. */
  datatype Outcome = SkippedDirectory | Error | NoExtension | Ok | Mismatch | Unsupported

  /** validExt: the subtypes checkFile can check an extension against (EXT_MAX == 8). */
  const ValidExt: seq<string> := ["pdf", "gif", "jpg", "jpeg", "png", "mp4", "zip", "html"]

  /** The text after the last '.' anywhere in the path (strrchr(path, '.') + 1), or none. */
  function Extension(path: string): (r: Option<string>)
    ensures r.None? <==> '.' !in path
    ensures r.Some? ==> |r.value| < |path| && '.' !in r.value
  {
    match LastIndex(path, '.')
    case None => None
    case Some(k) => Some(path[k + 1..])
  }

  /** No '.' means no extension; otherwise the path is `base + "." + ext` with no '.' in `ext`. */
  lemma ExtensionShape(path: string)
    ensures Extension(path).None? <==> '.' !in path
    ensures Extension(path).Some? ==>
      var e := Extension(path).value;
      |e| < |path| && '.' !in e && path == path[..|path| - |e| - 1] + ['.'] + e
  {
    if Extension(path).Some? {
      var k := LastIndex(path, '.').value;
      assert path == path[..k] + ['.'] + path[k + 1..];
    }
  }

  /** Appending "." and a dot-free text gives that text back as the extension. */
  lemma ExtensionOfJoin(base: string, e: string)
    requires '.' !in e
    ensures Extension(base + ['.'] + e) == Some(e)
  {
    var path := base + ['.'] + e;
    assert path[|base|] == '.';
    assert path[|base| + 1..] == e;
  }

  /**
   * The allow-list test: strncmp(token, validExt[i], 5) == 0 for some entry
   * (the loop at main.c:334-350 stops at the first such entry).
   */
  predicate Supported(token: string)
  {
    exists i :: 0 <= i < |ValidExt| && StrnEq(token, ValidExt[i], 5)
  }

  /** Every entry is shorter than 5, so the 5-character comparison is exact membership. */
  lemma SupportedIff(token: string)
    ensures Supported(token) <==> token in ValidExt
  {
    forall i | 0 <= i < |ValidExt| ensures StrnEq(token, ValidExt[i], 5) <==> token == ValidExt[i] {
      StrnEqShort(token, ValidExt[i], 5);
    }
  }

  /**
   * extMatch: the extension matches when its first 6 characters compare equal
   * to the subtype, or whenever the subtype is "jpeg" or "jpg".
   */
  predicate ExtMatch(ext: string, token: string)
  {
    StrnEq(ext, token, 6) || token == "jpeg" || token == "jpg"
  }

  /**
   * For an allow-listed subtype, extMatch is exact equality, except that a
   * jpeg or jpg subtype matches every extension.
   */
  lemma ExtMatchIff(ext: string, token: string)
    requires token in ValidExt
    ensures ExtMatch(ext, token) <==> ext == token || token == "jpeg" || token == "jpg"
  {
    StrnEqShort(ext, token, 6);
  }

  /**
   * The decision for one file, from its path and its detector line, in the
   * order of the source's tests. A missing subtype is taken as unsupported.
   */
  function Classify(path: string, line: string): Outcome
  {
    if Contains(line, "/directory") then SkippedDirectory
    else if Contains(line, "cannot") then Error
    else
      match Extension(path)
      case None => NoExtension
      case Some(ext) =>
        match Subtype(line)
        case Some(token) =>
          if Supported(token) then (if ExtMatch(ext, token) then Ok else Mismatch)
          else Unsupported
        case None => Unsupported
  }

  /** A directory line is skipped, whatever else it or the path holds. */
  lemma ClassifySkippedIff(path: string, line: string)
    ensures Classify(path, line) == SkippedDirectory <==> exists i :: OccursAt(line, "/directory", i)
  {
    ContainsIff(line, "/directory");
  }

  /** A detector failure is an error, unless the line also marks a directory. */
  lemma ClassifyErrorIff(path: string, line: string)
    ensures Classify(path, line) == Error <==>
      (!exists i :: OccursAt(line, "/directory", i)) && exists i :: OccursAt(line, "cannot", i)
  {
    ContainsIff(line, "/directory");
    ContainsIff(line, "cannot");
  }

  /** The outcome of a line that marks neither a directory nor a failure. */
  ghost predicate Plain(line: string)
  {
    (!exists i :: OccursAt(line, "/directory", i)) && !exists i :: OccursAt(line, "cannot", i)
  }

  /** A path without '.' is NoExtension whatever the subtype, even an unsupported one. */
  lemma ClassifyNoExtensionIff(path: string, line: string)
    ensures Classify(path, line) == NoExtension <==> Plain(line) && '.' !in path
  {
    ContainsIff(line, "/directory");
    ContainsIff(line, "cannot");
    ExtensionShape(path);
  }

  /**
   * OK exactly when the path has an extension, the subtype (the second
   * '/'-token of the line) is allow-listed, and the extension equals it or
   * the subtype is jpeg or jpg.
   */
  lemma ClassifyOkIff(path: string, line: string)
    ensures Classify(path, line) == Ok <==>
      Plain(line) && '.' in path &&
      var t := TokenAt(line, '/', 1);
      t.Some? && t.value in ValidExt &&
      (Extension(path).value == t.value || t.value == "jpeg" || t.value == "jpg")
  {
    ClassifyFacts(path, line);
  }

  /** Mismatch exactly when the subtype is allow-listed, not jpeg/jpg, and differs from the extension. */
  lemma ClassifyMismatchIff(path: string, line: string)
    ensures Classify(path, line) == Mismatch <==>
      Plain(line) && '.' in path &&
      var t := TokenAt(line, '/', 1);
      t.Some? && t.value in ValidExt && t.value != "jpeg" && t.value != "jpg" &&
      Extension(path).value != t.value
  {
    ClassifyFacts(path, line);
  }

  /** Unsupported exactly when the path has a '.' and the subtype is missing or not allow-listed. */
  lemma ClassifyUnsupportedIff(path: string, line: string)
    ensures Classify(path, line) == Unsupported <==>
      Plain(line) && '.' in path &&
      (TokenAt(line, '/', 1).None? || TokenAt(line, '/', 1).value !in ValidExt)
  {
    ClassifyFacts(path, line);
  }

  lemma ClassifyFacts(path: string, line: string)
    ensures Contains(line, "/directory") <==> exists i :: OccursAt(line, "/directory", i)
    ensures Contains(line, "cannot") <==> exists i :: OccursAt(line, "cannot", i)
    ensures Extension(path).None? <==> '.' !in path
    ensures Subtype(line) == TokenAt(line, '/', 1)
    ensures Subtype(line).Some? ==> (Supported(Subtype(line).value) <==> Subtype(line).value in ValidExt)
    ensures Extension(path).Some? && Subtype(line).Some? && Subtype(line).value in ValidExt ==>
      (ExtMatch(Extension(path).value, Subtype(line).value) <==>
        Extension(path).value == Subtype(line).value ||
        Subtype(line).value == "jpeg" || Subtype(line).value == "jpg")
  {
    ContainsIff(line, "/directory");
    ContainsIff(line, "cannot");
    ExtensionShape(path);
    SubtypeIsSecondToken(line);
    if Subtype(line).Some? {
      SupportedIff(Subtype(line).value);
      if Extension(path).Some? && Subtype(line).value in ValidExt {
        ExtMatchIff(Extension(path).value, Subtype(line).value);
      }
    }
  }

  /**
   * A path "base.ext" with a detector line "type/subtype" that marks neither
   * a directory nor a failure: OK or mismatch for an allow-listed subtype,
   * otherwise unsupported.
   */
  lemma ClassifyMime(base: string, ext: string, major: string, sub: string)
    requires '.' !in ext && major != [] && sub != [] && '/' !in major && '/' !in sub
    requires !Contains(major + ['/'] + sub, "/directory") && !Contains(major + ['/'] + sub, "cannot")
    ensures Classify(base + ['.'] + ext, major + ['/'] + sub) ==
      if sub !in ValidExt then Unsupported
      else if ext == sub || sub == "jpeg" || sub == "jpg" then Ok
      else Mismatch
  {
    ExtensionOfJoin(base, ext);
    SubtypeOfMime(major, sub);
    SupportedIff(sub);
    if sub in ValidExt {
      ExtMatchIff(ext, sub);
    }
  }
}
