/** `src/fs.rs`: listing a directory into entries, and reading and writing
    the sidecar files that hold descriptions. The operating system appears
    as oracles: `read_dir` as an optional listing, `is_dir`/`is_file` as
    predicates on paths, `canonicalize` as a partial map from path text to a
    canonical path, and the sidecar files as the maps of a `Disk`. */
module Fs {
  import opened Results
  import opened Strings
  import opened Errors
  import opened Path

  // ---------------------------------------------------------------------
  // Listing
  // ---------------------------------------------------------------------

  /** `path_filter`: with no kind filter, an entry is kept when it is not
      hidden or hidden entries are shown; a kind filter additionally asks
      for a directory or a regular file. `isDir`/`isFile` are what the
      operating system answers for the path. */
  function PathFilter(path: FsPath, isOnly: Option<Kind>, showHidden: bool, isDir: bool, isFile: bool): bool
  {
    match isOnly
    case Some(Dir) => isDir && (!IsHidden(path) || showHidden)
    case Some(File) => isFile && (!IsHidden(path) || showHidden)
    case None => !IsHidden(path) || showHidden
  }

  /** A kind filter only narrows the listing, and keeps only that kind. */
  lemma FilterNarrows(path: FsPath, kind: Kind, showHidden: bool, isDir: bool, isFile: bool)
    ensures PathFilter(path, Some(kind), showHidden, isDir, isFile) ==> PathFilter(path, None, showHidden, isDir, isFile)
    ensures PathFilter(path, Some(kind), showHidden, isDir, isFile) ==> if kind == Dir then isDir else isFile
    ensures PathFilter(path, None, showHidden, isDir, isFile) <==> !IsHidden(path) || showHidden
  {
  }

  /** The listed paths the filter keeps, in listing order. */
  function Kept(listing: seq<FsPath>, isOnly: Option<Kind>, showHidden: bool,
                isDir: string -> bool, isFile: string -> bool): (r: seq<FsPath>)
    ensures |r| <= |listing|
  {
    if |listing| == 0 then []
    else
      var rest := Kept(listing[..|listing| - 1], isOnly, showHidden, isDir, isFile);
      var x := listing[|listing| - 1];
      if PathFilter(x, isOnly, showHidden, isDir(x.text), isFile(x.text)) then rest + [x] else rest
  }

  /** `Kept` holds exactly the listed paths the filter accepts. */
  lemma {:induction false} KeptMembers(listing: seq<FsPath>, isOnly: Option<Kind>, showHidden: bool,
                                       isDir: string -> bool, isFile: string -> bool, x: FsPath)
    ensures x in Kept(listing, isOnly, showHidden, isDir, isFile)
            <==> x in listing && PathFilter(x, isOnly, showHidden, isDir(x.text), isFile(x.text))
  {
    if |listing| > 0 {
      KeptMembers(listing[..|listing| - 1], isOnly, showHidden, isDir, isFile, x);
      assert listing == listing[..|listing| - 1] + [listing[|listing| - 1]];
    }
  }

  /** The paths of a run of entries. */
  function PathsOf(s: seq<LsiPath>): (r: seq<FsPath>)
    ensures |r| == |s|
  {
    if |s| == 0 then [] else PathsOf(s[..|s| - 1]) + [s[|s| - 1].path]
  }

  /** `get_pathes`: an unreadable directory is `PathNotFound`; otherwise one
      fresh entry per kept path, each with the given sort mode, no
      description and the kind `is_dir` reports, sorted. */
  method GetPathes(listing: Option<seq<FsPath>>, isOnly: Option<Kind>, showHidden: bool, sortMode: string,
                   isDir: string -> bool, isFile: string -> bool)
    returns (r: Result<array<LsiPath>, LsiError>)
    ensures listing.None? <==> r.Err?
    ensures r.Err? ==> r.error == PathNotFound
    ensures r.Ok? ==> fresh(r.value)
    ensures r.Ok? ==> forall k :: 0 <= k < r.value.Length ==> fresh(r.value[k])
    ensures r.Ok? ==> r.value.Length == |Kept(listing.value, isOnly, showHidden, isDir, isFile)|
    ensures r.Ok? ==> multiset(PathsOf(r.value[..])) == multiset(Kept(listing.value, isOnly, showHidden, isDir, isFile))
    ensures r.Ok? ==> AllNew(r.value[..], sortMode, isDir)
    ensures r.Ok? ==> forall i, j :: 0 <= i < j < r.value.Length ==> Le(r.value[i], r.value[j])
    ensures r.Ok? ==> Distinct(r.value[..])
  {
    if listing.None? {
      return Err(PathNotFound);
    }
    var p := BuildEntries(listing.value, isOnly, showHidden, sortMode, isDir, isFile);
    var a := SortedArray(p, sortMode, isDir);
    PermutedPaths(p, a[..]);
    r := Ok(a);
  }

  /** `p.sort()` on the built entries, which share one sort mode. */
  method SortedArray(p: seq<LsiPath>, ghost sortMode: string, ghost isDir: string -> bool) returns (a: array<LsiPath>)
    requires AllNew(p, sortMode, isDir) && Distinct(p)
    ensures fresh(a)
    ensures Distinct(a[..])
    ensures multiset(a[..]) == multiset(p)
    ensures forall k :: 0 <= k < a.Length ==> a[k] in p
    ensures forall i, j :: 0 <= i < j < a.Length ==> Le(a[i], a[j])
  {
    a := new LsiPath[|p|](k requires 0 <= k < |p| => p[k]);
    assert a[..] == p;
    assert SameMode(a[..]) by {
      forall i, j | 0 <= i < a.Length && 0 <= j < a.Length
        ensures a[i].sortMode == a[j].sortMode
      {
        assert a[i] in p && a[j] in p;
      }
    }
    SortPaths(a);
    PermutationDistinct(p, a[..]);
  }

  /** An entry as `get_pathes` builds it: the given sort mode, no
      description, and the kind `is_dir` reports. */
  ghost predicate NewEntry(e: LsiPath, sortMode: string, isDir: string -> bool)
    reads e
  {
    e.sortMode == sortMode && e.description == None && e.kind == (if isDir(e.path.text) then Dir else File)
  }

  /** Every entry of `p` is as `get_pathes` builds it. */
  ghost predicate AllNew(p: seq<LsiPath>, sortMode: string, isDir: string -> bool)
    reads set e | e in p
  {
    forall e :: e in p ==> NewEntry(e, sortMode, isDir)
  }

  /** Entries built with one sort mode share it. */
  lemma SameModeOfNew(s: seq<LsiPath>, sortMode: string, isDir: string -> bool)
    requires AllNew(s, sortMode, isDir)
    ensures SameMode(s)
  {
    forall i, j | 0 <= i < |s| && 0 <= j < |s|
      ensures s[i].sortMode == s[j].sortMode
    {
      assert NewEntry(s[i], sortMode, isDir) && NewEntry(s[j], sortMode, isDir);
    }
  }

  /** The loop of `get_pathes`: one new entry per kept path, in listing
      order. */
  method BuildEntries(pathes: seq<FsPath>, isOnly: Option<Kind>, showHidden: bool, sortMode: string,
                      isDir: string -> bool, isFile: string -> bool)
    returns (p: seq<LsiPath>)
    ensures PathsOf(p) == Kept(pathes, isOnly, showHidden, isDir, isFile)
    ensures forall e :: e in p ==> fresh(e)
    ensures AllNew(p, sortMode, isDir) && Distinct(p)
  {
    p := [];
    for i := 0 to |pathes|
      invariant PathsOf(p) == Kept(pathes[..i], isOnly, showHidden, isDir, isFile)
      invariant forall e :: e in p ==> fresh(e)
      invariant AllNew(p, sortMode, isDir) && Distinct(p)
    {
      KeptStep(pathes, i, isOnly, showHidden, isDir, isFile);
      p := PushIfKept(p, pathes[i], isOnly, showHidden, sortMode, isDir, isFile);
    }
    assert pathes[..|pathes|] == pathes;
  }

  /** One turn of that loop: a new entry for `path` appended when the
      filter keeps it. */
  method PushIfKept(p: seq<LsiPath>, path: FsPath, isOnly: Option<Kind>, showHidden: bool, sortMode: string,
                    isDir: string -> bool, isFile: string -> bool)
    returns (p': seq<LsiPath>)
    requires AllNew(p, sortMode, isDir) && Distinct(p)
    ensures PathsOf(p') == if PathFilter(path, isOnly, showHidden, isDir(path.text), isFile(path.text))
                           then PathsOf(p) + [path] else PathsOf(p)
    ensures forall e :: e in p' ==> e in p || fresh(e)
    ensures AllNew(p', sortMode, isDir) && Distinct(p')
  {
    p' := p;
    if PathFilter(path, isOnly, showHidden, isDir(path.text), isFile(path.text)) {
      var lsiPath := new LsiPath(path, sortMode, isDir(path.text));
      PathsOfConcat(p, [lsiPath]);
      p' := p + [lsiPath];
    }
  }

  /** One more listed path: `Kept` grows by it exactly when the filter
      accepts it. */
  lemma KeptStep(pathes: seq<FsPath>, i: int, isOnly: Option<Kind>, showHidden: bool,
                 isDir: string -> bool, isFile: string -> bool)
    requires 0 <= i < |pathes|
    ensures var x := pathes[i];
            Kept(pathes[..i + 1], isOnly, showHidden, isDir, isFile)
            == if PathFilter(x, isOnly, showHidden, isDir(x.text), isFile(x.text))
               then Kept(pathes[..i], isOnly, showHidden, isDir, isFile) + [x]
               else Kept(pathes[..i], isOnly, showHidden, isDir, isFile)
  {
    assert pathes[..i + 1][..i] == pathes[..i];
  }

  /** Permuting entries permutes their paths. */
  lemma {:induction false} PermutedPaths(s: seq<LsiPath>, t: seq<LsiPath>)
    requires multiset(s) == multiset(t)
    ensures multiset(PathsOf(s)) == multiset(PathsOf(t))
    decreases |s|
  {
    if |s| == 0 {
      assert |t| == |multiset(t)| == 0;
    } else {
      var s0, x := s[..|s| - 1], s[|s| - 1];
      var k := RemoveLast(s, t);
      var t1, t2 := t[..k], t[k + 1..];
      PermutedPaths(s0, t1 + t2);
      assert PathsOf(s) == PathsOf(s0) + [x.path];
      assert t == t1 + [x] + t2;
      PathsOfSplit(t1, x, t2);
    }
  }

  /** The last entry of `s` sits somewhere in its permutation `t`; taking
      both away leaves permutations. */
  lemma RemoveLast(s: seq<LsiPath>, t: seq<LsiPath>) returns (k: int)
    requires |s| > 0 && multiset(s) == multiset(t)
    ensures 0 <= k < |t| && t[k] == s[|s| - 1]
    ensures multiset(s[..|s| - 1]) == multiset(t[..k] + t[k + 1..])
  {
    var x := s[|s| - 1];
    assert s == s[..|s| - 1] + [x];
    assert x in multiset(t);
    k :| 0 <= k < |t| && t[k] == x;
    assert t == t[..k] + [x] + t[k + 1..];
    assert multiset(s[..|s| - 1]) == multiset(s) - multiset{x};
    assert multiset(t[..k] + t[k + 1..]) == multiset(t) - multiset{x};
  }

  /** The paths of `t1 + [x] + t2` are those of `t1 + t2` and `x`'s. */
  lemma PathsOfSplit(t1: seq<LsiPath>, x: LsiPath, t2: seq<LsiPath>)
    ensures multiset(PathsOf(t1 + [x] + t2)) == multiset(PathsOf(t1 + t2)) + multiset{x.path}
  {
    PathsOfConcat(t1 + [x], t2);
    PathsOfConcat(t1, [x]);
    PathsOfConcat(t1, t2);
  }

  lemma {:induction false} PathsOfConcat(s: seq<LsiPath>, t: seq<LsiPath>)
    ensures PathsOf(s + t) == PathsOf(s) + PathsOf(t)
    decreases |t|
  {
    if |t| == 0 {
      assert s + t == s;
    } else {
      PathsOfConcat(s, t[..|t| - 1]);
      assert (s + t)[..|s + t| - 1] == s + t[..|t| - 1];
    }
  }

  // ---------------------------------------------------------------------
  // Canonical paths and sidecar names
  // ---------------------------------------------------------------------

  /** A canonical absolute path: the root, or a named child of a canonical
      path. */
  datatype CanonicalPath = Root | Child(parent: CanonicalPath, name: string)

  /** The text of a canonical path, as `to_str` gives it. */
  function Render(p: CanonicalPath): string
  {
    match p
    case Root => "/"
    case Child(Root, n) => "/" + n
    case Child(q, n) => Render(q) + "/" + n
  }

  /** Consecutive slashes collapsed to one: the file a path names does not
      depend on how many slashes separate its components. */
  function Collapse(s: string): string
  {
    if |s| >= 2 && s[0] == '/' && s[1] == '/' then Collapse(s[1..])
    else if |s| == 0 then ""
    else [s[0]] + Collapse(s[1..])
  }

  /** Where `read_dir_description` and `write_description` put a
      directory's description. */
  function DirSidecar(abs: CanonicalPath): string
  {
    Render(abs) + "/.description.lsi"
  }

  /** The directory that holds the sidecars of the files of a directory. */
  const SidecarDirName: string := ".file_description_lsi"

  /** Where `read_file_description` looks for the description of a file
      named `name` in `parent`. */
  function FileSidecarRead(parent: CanonicalPath, name: string): string
  {
    Render(parent) + "/" + SidecarDirName + "/." + name + ".lsi"
  }

  /** The sidecar directory `write_description` creates for files of
      `parent`. */
  function FileSidecarDir(parent: CanonicalPath): string
  {
    Render(Child(parent, SidecarDirName))
  }

  /** Where `write_description` puts the description of a file named
      `name` in `parent`. */
  function FileSidecarWrite(parent: CanonicalPath, name: string): string
  {
    FileSidecarDir(parent) + "/." + name + ".lsi"
  }

  /** The reader and the writer name the same file: the texts are equal
      except under the root, where the reader's has a doubled slash. */
  lemma SidecarNamesAgree(parent: CanonicalPath, name: string)
    ensures Collapse(FileSidecarRead(parent, name)) == Collapse(FileSidecarWrite(parent, name))
    ensures parent != Root ==> FileSidecarRead(parent, name) == FileSidecarWrite(parent, name)
    ensures parent == Root ==> FileSidecarRead(parent, name) == "/" + FileSidecarWrite(parent, name)
  {
    if parent == Root {
      SidecarUnderRoot(name);
    } else {
      SidecarUnderChild(parent, name);
    }
  }

  lemma SidecarUnderRoot(name: string)
    ensures FileSidecarRead(Root, name) == "/" + FileSidecarWrite(Root, name)
    ensures Collapse(FileSidecarRead(Root, name)) == Collapse(FileSidecarWrite(Root, name))
  {
    RootSidecarTexts(name);
    CollapseDoubledSlash(FileSidecarWrite(Root, name));
  }

  /** Under the root the writer's name starts with a slash, and the
      reader's is one more slash in front of it. */
  lemma RootSidecarTexts(name: string)
    ensures |FileSidecarWrite(Root, name)| > 0 && FileSidecarWrite(Root, name)[0] == '/'
    ensures FileSidecarRead(Root, name) == "/" + FileSidecarWrite(Root, name)
  {
    var w := "/" + SidecarDirName + "/." + name + ".lsi";
    assert FileSidecarWrite(Root, name) == w;
    assert FileSidecarRead(Root, name) == "/" + w;
  }

  /** A slash in front of a slash disappears in the collapse. */
  lemma CollapseDoubledSlash(w: string)
    requires |w| > 0 && w[0] == '/'
    ensures Collapse("/" + w) == Collapse(w)
  {
    assert ("/" + w)[1..] == w;
  }

  lemma SidecarUnderChild(parent: CanonicalPath, name: string)
    requires parent != Root
    ensures FileSidecarRead(parent, name) == FileSidecarWrite(parent, name)
  {
    var d := Render(parent) + "/" + SidecarDirName;
    assert FileSidecarDir(parent) == d;
    assert d + "/." + name + ".lsi" == Render(parent) + "/" + SidecarDirName + "/." + name + ".lsi";
  }

  /** `write_description`'s unescape: every two-character `\n` becomes a
      newline. */
  function ExpandNewlines(content: string): (r: string)
    ensures !Contains(r, "\\n")
  {
    ReplaceAllRemovesPattern(content, "\\n", "\n");
    ReplaceAll(content, "\\n", "\n")
  }

  /** Why a sidecar read or write fails. `NoFileName` is the case where the
      source unwraps a missing file name and panics (a file whose canonical
      path is the root). */
  datatype FsError = CanonicalizeFailed | NotFound | NoFileName

  /** The sidecar files and directories, keyed by slash-collapsed path. */
  class Disk {
    var files: map<string, string>
    var dirs: set<string>

    constructor (files: map<string, string>, dirs: set<string>)
      ensures this.files == files && this.dirs == dirs
    {
      this.files := files;
      this.dirs := dirs;
    }

    /** The trimmed content of the file at `path`. */
    function ReadTrimmed(path: string): (r: Result<string, FsError>)
      reads this
      ensures r.Ok? <==> Collapse(path) in files
      ensures r.Ok? ==> r.value == Trim(files[Collapse(path)])
    {
      if Collapse(path) in files then Ok(Trim(files[Collapse(path)])) else Err(NotFound)
    }

    /** `read_dir_description`. */
    function ReadDirDescription(pathText: string, canon: string -> Option<CanonicalPath>): (r: Result<string, FsError>)
      reads this
      ensures canon(pathText).None? ==> r == Err(CanonicalizeFailed)
      ensures canon(pathText).Some? ==> r == ReadTrimmed(DirSidecar(canon(pathText).value))
    {
      match canon(pathText)
      case None => Err(CanonicalizeFailed)
      case Some(abs) => ReadTrimmed(DirSidecar(abs))
    }

    /** `read_file_description`. */
    function ReadFileDescription(pathText: string, canon: string -> Option<CanonicalPath>): (r: Result<string, FsError>)
      reads this
      ensures canon(pathText).None? ==> r == Err(CanonicalizeFailed)
      ensures canon(pathText) == Some(Root) ==> r == Err(NoFileName)
      ensures canon(pathText).Some? && canon(pathText).value.Child? ==>
                r == ReadTrimmed(FileSidecarRead(canon(pathText).value.parent, canon(pathText).value.name))
    {
      match canon(pathText)
      case None => Err(CanonicalizeFailed)
      case Some(Root) => Err(NoFileName)
      case Some(Child(parent, name)) => ReadTrimmed(FileSidecarRead(parent, name))
    }

    /** The reader for an entry of the given kind. */
    function ReadDescription(pathText: string, kind: Kind, canon: string -> Option<CanonicalPath>): Result<string, FsError>
      reads this
    {
      if kind == Dir then ReadDirDescription(pathText, canon) else ReadFileDescription(pathText, canon)
    }

    /** The line printed after a successful write of `filename`. */
    function SuccessLine(filename: string): string
    {
      "Success: Write description to " + filename
    }

    /** `write_description`: expands `\n`, then writes the directory's
        sidecar, or the file's sidecar after creating the sidecar directory
        when it is missing, and gives the success line it prints. Reading
        the same path back afterwards gives the expanded content, trimmed. */
    method WriteDescription(target: string, isDir: bool, content: string, canon: string -> Option<CanonicalPath>)
      returns (r: Result<string, FsError>)
      modifies this
      ensures canon(target).None? ==> r == Err(CanonicalizeFailed) && files == old(files) && dirs == old(dirs)
      ensures canon(target).Some? && isDir ==>
                r == Ok(SuccessLine(DirSidecar(canon(target).value))) && dirs == old(dirs)
                && files == old(files)[Collapse(DirSidecar(canon(target).value)) := ExpandNewlines(content)]
      ensures canon(target) == Some(Root) && !isDir ==>
                r == Err(NoFileName) && files == old(files) && dirs == old(dirs)
      ensures canon(target).Some? && canon(target).value.Child? && !isDir ==>
                var abs := canon(target).value;
                r == Ok(SuccessLine(FileSidecarWrite(abs.parent, abs.name)))
                && dirs == old(dirs) + {Collapse(FileSidecarDir(abs.parent))}
                && files == old(files)[Collapse(FileSidecarWrite(abs.parent, abs.name)) := ExpandNewlines(content)]
      ensures r.Ok? ==> ReadDescription(target, if isDir then Dir else File, canon) == Ok(Trim(ExpandNewlines(content)))
    {
      var expanded := ReplaceAll(content, "\\n", "\n");
      var filename;
      match canon(target) {
        case None =>
          return Err(CanonicalizeFailed);
        case Some(abs) =>
          if isDir {
            filename := Render(abs) + "/.description.lsi";
          } else {
            match abs {
              case Root =>
                return Err(NoFileName);
              case Child(parent, name) =>
                var dir := Render(Child(parent, SidecarDirName));
                if Collapse(dir) !in dirs {
                  dirs := dirs + {Collapse(dir)};
                }
                filename := dir + "/." + name + ".lsi";
                SidecarNamesAgree(parent, name);
            }
          }
      }
      files := files[Collapse(filename) := expanded];
      r := Ok(SuccessLine(filename));
    }
  }
}
