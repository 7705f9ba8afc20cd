/**
 * Directory mode's input list (main.c:134-174): the directory argument gets
 * a trailing '/' when it lacks one, and every listed entry except "." and
 * ".." becomes that directory followed by the entry name. The listing itself
 * (opendir/readdir) is an input: `None` when the directory cannot be opened.
 */
module Directory {
  import opened Wrappers
  import opened Faults
  import opened CString

  /**
   * The normalisation at main.c:136-142: "/" is appended when the argument
   * has no '/' at all, or when text follows its last '/'.
   */
  function NormalizeDir(dir: string): (r: string)
    ensures |r| > 0 && r[|r| - 1] == '/'
    ensures if |dir| > 0 && dir[|dir| - 1] == '/' then r == dir else r == dir + "/"
  {
    match LastIndex(dir, '/')
    case None => dir + "/"
    case Some(k) => if Span(dir[k + 1..], '/') != 0 then dir + "/" else dir
  }

  /** Normalising twice changes nothing more. */
  lemma NormalizeDirIdempotent(dir: string)
    ensures NormalizeDir(NormalizeDir(dir)) == NormalizeDir(dir)
  {
  }

  /** The two entries the loop drops. */
  predicate IsDotEntry(name: string)
  {
    name == "." || name == ".."
  }

  /** The paths the loop builds from the first |names| entries, in listing order. */
  function EntryPaths(dir: string, names: seq<string>): seq<string>
    decreases |names|
  {
    if names == [] then []
    else
      var last := names[|names| - 1];
      EntryPaths(dir, names[..|names| - 1]) + (if IsDotEntry(last) then [] else [dir + last])
  }

  /**
   * The readdir loop (main.c:152-165): each kept entry is appended to
   * `filenames` and counted in `dirCount`.
   */
  method CollectEntries(dir: string, listing: seq<string>) returns (filenames: seq<string>, dirCount: nat)
    ensures filenames == EntryPaths(dir, listing)
    ensures dirCount == |filenames|
  {
    filenames, dirCount := [], 0;
    for i := 0 to |listing|
      invariant filenames == EntryPaths(dir, listing[..i])
      invariant dirCount == |filenames|
    {
      assert listing[..i + 1][..i] == listing[..i];
      var name := listing[i];
      if name == "." || name == ".." {
        continue;
      }
      filenames := filenames + [dir + name];
      dirCount := dirCount + 1;
    }
    assert listing[..|listing|] == listing;
  }

  /**
   * Directory mode's resolver: the normalised directory and its entries, or
   * ERR_OPEN_DIR when the directory cannot be opened.
   */
  method ResolveDirectory(dirArg: string, listing: Option<seq<string>>) returns (r: Result<seq<string>, Fault>)
    ensures listing.None? ==> r == Failure(OpenDirFailed)
    ensures listing.Some? ==> r == Success(EntryPaths(NormalizeDir(dirArg), listing.value))
  {
    var dir := NormalizeDir(dirArg);
    if listing.None? {
      return Failure(OpenDirFailed);
    }
    var filenames, dirCount := CollectEntries(dir, listing.value);
    r := Success(filenames);
  }

  /** The entries of a listing split in two are those of the first part, then the second. */
  lemma {:induction false} EntryPathsAppend(dir: string, a: seq<string>, b: seq<string>)
    ensures EntryPaths(dir, a + b) == EntryPaths(dir, a) + EntryPaths(dir, b)
    decreases |b|
  {
    if b == [] {
      assert a + b == a;
    } else {
      var n := |b| - 1;
      EntryPathsAppend(dir, a, b[..n]);
      assert (a + b)[..|a + b| - 1] == a + b[..n];
    }
  }

  /** A path is produced exactly when it is the directory plus a listed entry that is not "." or "..". */
  lemma {:induction false} EntryPathsMembers(dir: string, names: seq<string>, p: string)
    ensures p in EntryPaths(dir, names) <==> exists name :: name in names && !IsDotEntry(name) && p == dir + name
    decreases |names|
  {
    if names != [] {
      var n := |names| - 1;
      EntryPathsMembers(dir, names[..n], p);
      assert names == names[..n] + [names[n]];
    }
  }

  /** Neither "." nor ".." ever appears as an entry path. */
  lemma NoDotPaths(dir: string, names: seq<string>)
    ensures dir + "." !in EntryPaths(dir, names) && dir + ".." !in EntryPaths(dir, names)
  {
    EntryPathsMembers(dir, names, dir + ".");
    EntryPathsMembers(dir, names, dir + "..");
    forall name | dir + name == dir + "." || dir + name == dir + ".."
      ensures IsDotEntry(name)
    {
      assert name == (dir + name)[|dir|..];
    }
  }

  /** dirCount is the number of listed entries other than "." and "..". */
  lemma {:induction false} EntryPathsCount(dir: string, names: seq<string>)
    ensures |EntryPaths(dir, names)| == |names| - multiset(names)["."] - multiset(names)[".."]
    decreases |names|
  {
    if names != [] {
      var n := |names| - 1;
      EntryPathsCount(dir, names[..n]);
      assert names == names[..n] + [names[n]];
      assert multiset(names) == multiset(names[..n]) + multiset{names[n]};
    }
  }
}
