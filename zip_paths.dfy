/**
 * The path handling of the sketch exporter's ZIP writer: leading slashes are stripped from every
 * file name, and a directory entry is made for each directory a file sits in, each one once.
 */
module ZipPaths {
  import opened Wrappers
  import opened Text
  import opened Seqs

  predicate IsSlash(c: char) {
    c == '/'
  }

  /**
   * `normalizePath`: the path without its leading slashes. The result is what is left of the
   * path once a run of slashes (and nothing else) is cut from its front, and it starts with no
   * slash.
   */
  function NormalizePath(path: string): (r: string)
    ensures |r| <= |path| && r == path[|path| - |r|..]
    ensures forall i :: 0 <= i < |path| - |r| ==> path[i] == '/'
    ensures r == [] || r[0] != '/'
  {
    path[|TakeWhile(path, IsSlash)|..]
  }

  /** Normalizing twice is normalizing once. */
  lemma {:induction false} NormalizePathIdempotent(path: string)
    ensures NormalizePath(NormalizePath(path)) == NormalizePath(path)
  {
    var r := NormalizePath(path);
    assert TakeWhile(r, IsSlash) == [] by {
      assert r == [] || !IsSlash(r[0]);
    }
  }

  /** A directory of `path`: a non-empty prefix of it that ends with a slash. */
  predicate IsDirPrefix(d: string, path: string) {
    0 < |d| <= |path| && d == path[..|d|] && path[|d| - 1] == '/'
  }

  /** The directory the first `i + 1` pieces of a path make: those pieces joined, then a slash. */
  function DirOf(parts: seq<string>, i: nat): string
    requires i < |parts|
  {
    Join(parts[..i + 1], '/') + "/"
  }

  /**
   * The directory paths one file contributes, in the order the exporter makes them: for each
   * piece of the path but the last, the pieces up to it joined by `/`, with a `/` after.
   */
  function DirPaths(path: string): (dirs: seq<string>)
    ensures |dirs| == |Split(path, '/')| - 1
    ensures forall i :: 0 <= i < |dirs| ==> dirs[i] == DirOf(Split(path, '/'), i)
  {
    var parts := Split(path, '/');
    seq(|parts| - 1, i requires 0 <= i < |parts| - 1 => DirOf(parts, i))
  }

  lemma {:induction false} DirPathsOfPlainName(path: string)
    requires IndexOf(path, '/').None?
    ensures DirPaths(path) == []
  {
  }

  lemma {:induction false} SplitStep(path: string, j: nat)
    requires IndexOf(path, '/') == Some(j)
    ensures Split(path, '/') == [path[..j]] + Split(path[j + 1..], '/')
  {
  }

  lemma {:induction false} JoinCons(a: string, parts: seq<string>, c: char)
    requires |parts| >= 1
    ensures Join([a] + parts, c) == a + [c] + Join(parts, c)
  {
    assert ([a] + parts)[1..] == parts;
  }

  lemma {:induction false} TakeCons<T>(a: T, s: seq<T>, n: nat)
    requires n <= |s|
    ensures ([a] + s)[..n + 1] == [a] + s[..n]
  {
  }

  lemma {:induction false} TakeThroughSlash(path: string, j: nat)
    requires j < |path| && path[j] == '/'
    ensures path[..j + 1] == path[..j] + "/"
  {
  }

  /** A directory past the first piece: the first piece and a slash, then the rest's directory. */
  lemma {:induction false} DirOfCons(a: string, parts: seq<string>, i: nat)
    requires i < |parts|
    ensures DirOf([a] + parts, i + 1) == a + "/" + DirOf(parts, i)
  {
    TakeCons(a, parts, i + 1);
    JoinCons(a, parts[..i + 1], '/');
    Associative(a + "/", Join(parts[..i + 1], '/'), "/");
  }

  lemma {:induction false} Associative<T>(a: seq<T>, b: seq<T>, c: seq<T>)
    ensures a + b + c == a + (b + c)
  {
  }

  /** The directory after the first: the first directory, then the rest's directory before it. */
  lemma {:induction false} DirPathAfterFirst(path: string, j: nat, i: nat)
    requires IndexOf(path, '/') == Some(j)
    requires i < |DirPaths(path[j + 1..])|
    ensures |DirPaths(path)| == |DirPaths(path[j + 1..])| + 1
    ensures DirPaths(path)[i + 1] == path[..j + 1] + DirPaths(path[j + 1..])[i]
  {
    SplitStep(path, j);
    DirOfCons(path[..j], Split(path[j + 1..], '/'), i);
    TakeThroughSlash(path, j);
  }

  /** The directories of a path are its first directory, then that directory before each of the rest's. */
  lemma {:induction false} DirPathsStep(path: string, j: nat)
    requires IndexOf(path, '/') == Some(j)
    ensures var rest := DirPaths(path[j + 1..]);
      |DirPaths(path)| == |rest| + 1 && DirPaths(path)[0] == path[..j + 1] &&
      forall i :: 1 <= i < |DirPaths(path)| ==> DirPaths(path)[i] == path[..j + 1] + rest[i - 1]
  {
    SplitStep(path, j);
    assert Split(path, '/')[..1] == [path[..j]];
    TakeThroughSlash(path, j);
    forall i | 1 <= i < |DirPaths(path)|
      ensures DirPaths(path)[i] == path[..j + 1] + DirPaths(path[j + 1..])[i - 1]
    {
      DirPathAfterFirst(path, j, i - 1);
    }
  }

  lemma {:induction false} PlainNameHasNoDirs(path: string)
    requires IndexOf(path, '/').None?
    ensures forall d :: !IsDirPrefix(d, path)
  {
    forall d ensures !IsDirPrefix(d, path) {
      if IsDirPrefix(d, path) {
        assert false;
      }
    }
  }

  /** A longer prefix is a shorter one followed by a prefix of the rest. */
  lemma {:induction false} TakeAppend(path: string, a: nat, b: nat)
    requires a <= b <= |path|
    ensures path[..b] == path[..a] + path[a..][..b - a]
  {
  }

  /** Each directory made from a path whose first slash is at `j` is a directory of the path. */
  lemma {:induction false} DirPathSound(path: string, j: nat, rest: string, d: string)
    requires IndexOf(path, '/') == Some(j) && rest == path[j + 1..]
    requires forall e :: e in DirPaths(rest) ==> IsDirPrefix(e, rest)
    requires d in DirPaths(path)
    ensures IsDirPrefix(d, path)
  {
    DirPathsStep(path, j);
    var i :| 0 <= i < |DirPaths(path)| && DirPaths(path)[i] == d;
    if i > 0 {
      var e := DirPaths(rest)[i - 1];
      assert e in DirPaths(rest);
      DirOfRest(path, j, rest, e);
    }
  }

  /** The first directory followed by a directory of the rest is a directory of the path. */
  lemma {:induction false} DirOfRest(path: string, j: nat, rest: string, e: string)
    requires j < |path| && rest == path[j + 1..]
    requires IsDirPrefix(e, rest)
    ensures IsDirPrefix(path[..j + 1] + e, path)
  {
    TakeAppend(path, j + 1, j + 1 + |e|);
  }

  /** Each directory of a path whose first slash is at `j` is among those made from it. */
  lemma {:induction false} DirPathComplete(path: string, j: nat, rest: string, d: string)
    requires IndexOf(path, '/') == Some(j) && rest == path[j + 1..]
    requires forall e :: IsDirPrefix(e, rest) ==> e in DirPaths(rest)
    requires IsDirPrefix(d, path)
    ensures d in DirPaths(path)
  {
    DirReachesFirstSlash(path, j, d);
    DirPathsStep(path, j);
    if |d| == j + 1 {
      assert DirPaths(path)[0] == d;
    } else {
      var e := DirInRest(path, j, rest, d);
      var i :| 0 <= i < |DirPaths(rest)| && DirPaths(rest)[i] == e;
      assert DirPaths(path)[i + 1] == d;
    }
  }

  /** A directory of a path runs at least up to the path's first slash. */
  lemma {:induction false} DirReachesFirstSlash(path: string, j: nat, d: string)
    requires IndexOf(path, '/') == Some(j) && IsDirPrefix(d, path)
    ensures |d| >= j + 1
  {
    forall k | 0 <= k < j
      ensures path[k] != '/'
    {
      assert path[..j][k] == path[k];
    }
  }

  /** A directory longer than the first one is the first directory followed by a directory of the rest. */
  lemma {:induction false} DirInRest(path: string, j: nat, rest: string, d: string) returns (e: string)
    requires IndexOf(path, '/') == Some(j) && rest == path[j + 1..]
    requires IsDirPrefix(d, path) && |d| > j + 1
    ensures IsDirPrefix(e, rest) && d == path[..j + 1] + e
  {
    TakeAppend(path, j + 1, |d|);
    e := rest[..|d| - j - 1];
  }

  /**
   * The directories one file contributes are exactly the slash-terminated prefixes of its path
   * (the whole path among them when it ends with a slash).
   */
  lemma {:induction false} DirPathsAreDirPrefixes(path: string)
    ensures forall d :: d in DirPaths(path) <==> IsDirPrefix(d, path)
    decreases |path|
  {
    match IndexOf(path, '/')
    case None =>
      DirPathsOfPlainName(path);
      PlainNameHasNoDirs(path);
    case Some(j) =>
      DirPathsAreDirPrefixes(path[j + 1..]);
      forall d ensures d in DirPaths(path) <==> IsDirPrefix(d, path) {
        if d in DirPaths(path) {
          DirPathSound(path, j, path[j + 1..], d);
        }
        if IsDirPrefix(d, path) {
          DirPathComplete(path, j, path[j + 1..], d);
        }
      }
  }

  /** A file handed to the ZIP writer; `None` content is a missing `content` property. */
  datatype FileSpec = FileSpec(filename: string, content: Option<string>, isDirectory: bool)

  /** The entry `processDirectories` makes for a directory path. */
  function DirectoryEntry(dir: string): FileSpec {
    FileSpec(dir, Some(""), true)
  }

  predicate NoDuplicates<T(==)>(s: seq<T>) {
    forall i, j :: 0 <= i < j < |s| ==> s[i] != s[j]
  }

  /** `Set.add`: the value is appended unless the set already holds it. */
  function SetAdd(dirs: seq<string>, x: string): (r: seq<string>)
    ensures forall d :: d in r <==> d in dirs || d == x
    ensures NoDuplicates(dirs) ==> NoDuplicates(r)
  {
    if x in dirs then dirs else dirs + [x]
  }

  /** Each of `xs` added in turn. */
  function SetAddAll(dirs: seq<string>, xs: seq<string>): seq<string>
    decreases |xs|
  {
    if xs == [] then dirs else SetAdd(SetAddAll(dirs, xs[..|xs| - 1]), xs[|xs| - 1])
  }

  /** Adding values one by one keeps a set free of duplicates and gains exactly those values. */
  lemma {:induction false} SetAddAllContents(dirs: seq<string>, xs: seq<string>)
    requires NoDuplicates(dirs)
    ensures NoDuplicates(SetAddAll(dirs, xs))
    ensures forall d :: d in SetAddAll(dirs, xs) <==> d in dirs || d in xs
    decreases |xs|
  {
    if xs != [] {
      var init := xs[..|xs| - 1];
      SetAddAllContents(dirs, init);
      assert xs == init + [xs[|xs| - 1]];
    }
  }

  /** The directory set `processDirectories` builds, file by file. */
  function Directories(files: seq<FileSpec>): seq<string>
    decreases |files|
  {
    if files == [] then []
    else
      var last := files[|files| - 1];
      SetAddAll(Directories(files[..|files| - 1]), DirPaths(NormalizePath(last.filename)))
  }

  lemma {:induction false} DirectoriesOneMore(files: seq<FileSpec>, n: nat)
    requires n < |files|
    ensures Directories(files[..n + 1]) == SetAddAll(Directories(files[..n]), DirPaths(NormalizePath(files[n].filename)))
  {
    TakeTake(files, n + 1, n);
  }

  /** `d` is a directory of one of the files' normalized names. */
  predicate InSomePath(d: string, files: seq<FileSpec>) {
    exists f :: f in files && IsDirPrefix(d, NormalizePath(f.filename))
  }

  lemma {:induction false} InSomePathAppend(d: string, init: seq<FileSpec>, last: FileSpec)
    ensures InSomePath(d, init + [last]) <==> InSomePath(d, init) || IsDirPrefix(d, NormalizePath(last.filename))
  {
    if InSomePath(d, init + [last]) {
      var f :| f in init + [last] && IsDirPrefix(d, NormalizePath(f.filename));
      if f != last {
        assert f in init;
      }
    }
    if IsDirPrefix(d, NormalizePath(last.filename)) {
      assert last in init + [last];
    }
    if InSomePath(d, init) {
      var f :| f in init && IsDirPrefix(d, NormalizePath(f.filename));
      assert f in init + [last];
    }
  }

  /**
   * The directories of a list of files hold no path twice, and are exactly the slash-terminated
   * prefixes of the normalized file names.
   */
  lemma {:induction false} DirectoriesExact(files: seq<FileSpec>)
    ensures NoDuplicates(Directories(files))
    ensures forall d :: d in Directories(files) <==> InSomePath(d, files)
    decreases |files|
  {
    if files != [] {
      var init, last := files[..|files| - 1], files[|files| - 1];
      DirectoriesExact(init);
      var path := NormalizePath(last.filename);
      SetAddAllContents(Directories(init), DirPaths(path));
      DirPathsAreDirPrefixes(path);
      InitLast(files);
      forall d ensures d in Directories(files) <==> InSomePath(d, files) {
        InSomePathAppend(d, init, last);
      }
    }
  }

  /** The body of the `forEach` in `processDirectories`: each directory of one path added to the set. */
  method AddPathDirectories(directories: seq<string>, normalizedPath: string) returns (r: seq<string>)
    ensures r == SetAddAll(directories, DirPaths(normalizedPath))
  {
    r := directories;
    var pathParts := Split(normalizedPath, '/');
    for i := 0 to |pathParts| - 1
      invariant r == SetAddAll(directories, DirPaths(normalizedPath)[..i])
    {
      var dirPath := Join(pathParts[..i + 1], '/') + "/";
      TakeOneMore(DirPaths(normalizedPath), i);
      if dirPath !in r {
        r := r + [dirPath];
      }
    }
    TakeAll(DirPaths(normalizedPath));
  }

  /**
   * `processDirectories`: one directory entry for each directory a file sits in, in the order
   * the directories are first met, none twice.
   */
  method ProcessDirectories(files: seq<FileSpec>) returns (entries: seq<FileSpec>)
    ensures |entries| == |Directories(files)|
    ensures forall k :: 0 <= k < |entries| ==> entries[k] == DirectoryEntry(Directories(files)[k])
  {
    var directories: seq<string> := [];
    for n := 0 to |files|
      invariant directories == Directories(files[..n])
    {
      DirectoriesOneMore(files, n);
      directories := AddPathDirectories(directories, NormalizePath(files[n].filename));
    }
    TakeAll(files);
    entries := seq(|directories|, k requires 0 <= k < |directories| => DirectoryEntry(directories[k]));
  }

  /** A file with its name normalized, as the writer lists it. */
  function Normalized(f: FileSpec): FileSpec {
    f.(filename := NormalizePath(f.filename))
  }

  /** `allEntries`: the directory entries first, then the files under their normalized names. */
  function AllEntries(files: seq<FileSpec>): (r: seq<FileSpec>)
    ensures |r| == |Directories(files)| + |files|
  {
    Map(Directories(files), DirectoryEntry) + Map(files, Normalized)
  }
}
