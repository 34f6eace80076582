/**
 * The recursive class autoloader.  A class name becomes a lower-case file
 * name (underscores and backslashes turned into the directory separator,
 * the extension appended), and the first file under the configured
 * directory whose lower-cased basename is a suffix of it is included,
 * if readable.  The directory tree is an input: for each directory, its
 * leaves in iteration order.
 */
module Loading {
  import opened Optional
  import opened Strings

  /** A leaf the recursive directory iterator yields. */
  datatype FileEntry = FileEntry(filename: string, pathname: string, readable: bool)

  /** Each existing directory with all the files beneath it, in iteration order. */
  type FileSystem = map<string, seq<FileEntry>>

  /** What one call of load does. */
  datatype LoadOutcome =
    | DirectoryMissing                  // the directory iterator cannot open the configured path
    | NoMatch                           // no file matched: nothing included
    | Included(pathname: string)        // the first match, readable, passed to include_once
    | SkippedUnreadable(pathname: string) // the first match, unreadable: the search still stops

  /** endsWith(haystack, needle) */
  function EndsWith(h: string, n: string): bool
  {
    |n| == 0 || SubstrFromEnd(h, |n|) == n
  }

  /** The file name load looks for. */
  function ClassFileName(cls: string, ext: string, sep: char): string
  {
    Lower(Replace(Replace(cls, '_', sep), '\\', sep) + ext)
  }

  /** A file matches when its lower-cased basename ends the wanted file name. */
  predicate Matches(target: string, f: FileEntry)
  {
    EndsWith(target, Lower(f.filename))
  }

  /** The index of the first matching file. */
  function FirstMatch(target: string, files: seq<FileEntry>): (r: Option<nat>)
    ensures r.Some? ==> r.value < |files| && Matches(target, files[r.value])
    ensures r.Some? ==> forall j :: 0 <= j < r.value ==> !Matches(target, files[j])
    ensures r.None? <==> forall j :: 0 <= j < |files| ==> !Matches(target, files[j])
  {
    if files == [] then None
    else if Matches(target, files[0]) then Some(0)
    else match FirstMatch(target, files[1..])
      case None => None
      case Some(k) => Some(k + 1)
  }

  /** What load does with the files of the iterator. */
  function Outcome(target: string, files: seq<FileEntry>): (o: LoadOutcome)
    ensures o != DirectoryMissing
    ensures o.NoMatch? <==> FirstMatch(target, files).None?
    ensures o.Included? ==> o.pathname == files[FirstMatch(target, files).value].pathname
    ensures o.Included? || o.SkippedUnreadable? ==>
      (files[FirstMatch(target, files).value].readable <==> o.Included?)
  {
    match FirstMatch(target, files)
    case None => NoMatch
    case Some(i) => if files[i].readable then Included(files[i].pathname) else SkippedUnreadable(files[i].pathname)
  }

  /** The root the cached iterator walks once pathIterator has run with `path` configured. */
  function NextRoot(cached: Option<string>, path: string): (r: Option<string>)
    ensures r.Some?
    ensures cached.Some? ==> r == cached
  {
    if cached.None? then Some(path) else cached
  }

  /** The leaves beneath `root` (none once the directory has gone). */
  function Listing(fs: FileSystem, root: string): seq<FileEntry>
  {
    if root in fs then fs[root] else []
  }

  class Autoloader {
    /** DIRECTORY_SEPARATOR */
    const sep: char
    /** $_ext */
    var ext: string
    /** $_path */
    var path: string
    /** The directory the cached $_pathIterator walks, once built. */
    var iteratorRoot: Option<string>
    /** The files include_once has taken in. */
    var included: set<string>

    /** The class's initial static state: extension '.php', its own directory, no iterator. */
    constructor (sep: char, dir: string)
      ensures this.sep == sep && ext == ".php" && path == dir && iteratorRoot == None && included == {}
    {
      this.sep := sep;
      ext := ".php";
      path := dir;
      iteratorRoot := None;
      included := {};
    }

    /** setExt */
    method SetExt(e: string)
      modifies this
      ensures ext == e
      ensures path == old(path) && iteratorRoot == old(iteratorRoot) && included == old(included)
    {
      ext := e;
    }

    /** setPath */
    method SetPath(p: string)
      modifies this
      ensures path == p
      ensures ext == old(ext) && iteratorRoot == old(iteratorRoot) && included == old(included)
    {
      path := p;
    }

    /**
     * pathIterator: a directory iterator on the configured path is
     * opened on every call (and fails when the path is missing), but the
     * recursive iterator is built from it only the first time.
     */
    method PathIterator(fs: FileSystem) returns (root: Option<string>)
      modifies this
      ensures ext == old(ext) && path == old(path) && included == old(included)
      ensures path !in fs ==> root.None? && iteratorRoot == old(iteratorRoot)
      ensures path in fs ==> iteratorRoot == NextRoot(old(iteratorRoot), path) && root == iteratorRoot
    {
      if path !in fs {
        return None;
      }
      if iteratorRoot.None? {
        iteratorRoot := Some(path);
      }
      root := iteratorRoot;
    }

    /** load: derive the file name and include the first match, if readable. */
    method Load(cls: string, fs: FileSystem) returns (outcome: LoadOutcome)
      modifies this
      ensures ext == old(ext) && path == old(path)
      ensures path !in fs ==> outcome == DirectoryMissing && iteratorRoot == old(iteratorRoot)
      ensures path in fs ==> (iteratorRoot == NextRoot(old(iteratorRoot), path)
                              && outcome == Outcome(ClassFileName(cls, ext, sep), Listing(fs, iteratorRoot.value)))
      ensures included == if outcome.Included? then old(included) + {outcome.pathname} else old(included)
    {
      var target := ClassFileName(cls, ext, sep);
      var root := PathIterator(fs);
      if root.None? {
        return DirectoryMissing;
      }
      var files := Listing(fs, root.value);
      outcome := NoMatch;
      var i := 0;
      while i < |files|
        invariant 0 <= i <= |files|
        invariant forall j :: 0 <= j < i ==> !Matches(target, files[j])
        invariant included == old(included) && outcome == NoMatch
        invariant iteratorRoot == root && ext == old(ext) && path == old(path)
      {
        if EndsWith(target, Lower(files[i].filename)) {
          if files[i].readable {
            included := included + {files[i].pathname};
            outcome := Included(files[i].pathname);
          } else {
            outcome := SkippedUnreadable(files[i].pathname);
          }
          break;
        }
        i := i + 1;
      }
    }
  }

  // ---- properties ----------------------------------------------------------------

  /** endsWith is the suffix test: the needle is what remains after a prefix of the haystack. */
  lemma EndsWithSuffix(h: string, n: string)
    ensures EndsWith(h, n) <==> |n| <= |h| && h[|h| - |n|..] == n
    ensures |n| > |h| ==> !EndsWith(h, n)
  {
    if |n| > |h| && |n| > 0 {
      assert |SubstrFromEnd(h, |n|)| == |h|;
    }
  }

  /** Every string ends with itself and with each of its suffixes. */
  lemma EndsWithConcat(p: string, n: string)
    ensures EndsWith(p + n, n)
  {
    assert (p + n)[|p + n| - |n|..] == n;
  }

  /**
   * The derived name keeps the class name's length plus the extension;
   * every `_` and `\` becomes the (lower-cased) separator and every other
   * character is lower-cased.
   */
  lemma ClassFileNameShape(cls: string, ext: string, sep: char)
    ensures |ClassFileName(cls, ext, sep)| == |cls| + |ext|
    ensures forall i :: 0 <= i < |cls| ==>
      ClassFileName(cls, ext, sep)[i] == if cls[i] == '_' || cls[i] == '\\' then LowerChar(sep) else LowerChar(cls[i])
    ensures ClassFileName(cls, ext, sep)[|cls|..] == Lower(ext)
    ensures NoUpperCase(ClassFileName(cls, ext, sep))
  {
    LowerHasNoUpperCase(Replace(Replace(cls, '_', sep), '\\', sep) + ext);
  }

  /** With a separator of its own, no `_` or `\` of the class name survives. */
  lemma NoSeparatorsLeft(cls: string, ext: string, sep: char)
    requires sep != '_' && sep != '\\'
    requires forall i :: 0 <= i < |ext| ==> ext[i] != '_' && ext[i] != '\\'
    ensures forall i :: 0 <= i < |ClassFileName(cls, ext, sep)| ==>
      ClassFileName(cls, ext, sep)[i] != '_' && ClassFileName(cls, ext, sep)[i] != '\\'
  {
    ClassFileNameShape(cls, ext, sep);
    var r := ClassFileName(cls, ext, sep);
    forall i | 0 <= i < |r|
      ensures r[i] != '_' && r[i] != '\\'
    {
      if i >= |cls| {
        assert r[i] == r[|cls|..][i - |cls|] == LowerChar(ext[i - |cls|]);
      }
    }
  }

  /** A file is a match exactly when its lower-cased basename is what ends the wanted file name. */
  lemma MatchIsSuffix(target: string, f: FileEntry)
    ensures Matches(target, f) <==>
      |f.filename| <= |target| && target[|target| - |f.filename|..] == Lower(f.filename)
  {
    EndsWithSuffix(target, Lower(f.filename));
  }

  /**
   * Once the iterator is built, later paths change nothing: the root is
   * the path configured at the first successful call.
   */
  lemma {:induction false} IteratorBuiltOnce(cached: Option<string>, paths: seq<string>)
    requires |paths| > 0
    ensures Roots(cached, paths) == NextRoot(cached, paths[0])
  {
    if |paths| > 1 {
      IteratorBuiltOnce(cached, paths[..|paths| - 1]);
      assert paths[..|paths| - 1][0] == paths[0];
    }
  }

  /** The cached root after pathIterator ran with each of `paths` configured in turn. */
  function Roots(cached: Option<string>, paths: seq<string>): Option<string>
  {
    if paths == [] then cached else NextRoot(Roots(cached, paths[..|paths| - 1]), paths[|paths| - 1])
  }

  /** load includes at most one file, and only a readable first match. */
  lemma AtMostOneInclude(target: string, files: seq<FileEntry>)
    ensures Outcome(target, files).Included? ==>
      exists i :: (0 <= i < |files| && files[i].readable && Matches(target, files[i])
                   && files[i].pathname == Outcome(target, files).pathname
                   && forall j :: 0 <= j < i ==> !Matches(target, files[j]))
    ensures Outcome(target, files).SkippedUnreadable? ==>
      exists i :: (0 <= i < |files| && !files[i].readable && Matches(target, files[i])
                   && forall j :: 0 <= j < i ==> !Matches(target, files[j]))
  {
    var m := FirstMatch(target, files);
    if m.Some? {
      var i := m.value;
      assert 0 <= i < |files| && Matches(target, files[i]);
    }
  }
}
