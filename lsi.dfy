/** `src/lsi.rs` and the argument record of `src/lib.rs`: one listing run,
    from enumerating the directory to the printed lines. */
module Lsi {
  import opened Results
  import opened Config
  import opened Colors
  import opened Errors
  import opened Path
  import opened Fs
  import opened View

  /** `LsiArgs`. */
  datatype LsiArgs = LsiArgs(
    path: string, showHidden: bool, isOnly: Option<Kind>, configPath: Option<string>,
    descNum: Option<nat>, isMkdiriMode: bool, setDescription: Option<string>,
    editDescription: Option<string>, sortMode: string)

  // ---------------------------------------------------------------------
  // Descriptions
  // ---------------------------------------------------------------------

  /** The description an entry ends with after a sidecar read: the content
      read, or the description it had when the read failed. */
  function Loaded(before: Option<string>, read: Result<string, FsError>): Option<string>
  {
    match read
    case Ok(content) => Some(content)
    case Err(_) => before
  }

  /** `get_and_set_description`: a directory reads its directory sidecar,
      a file its file sidecar; a successful read becomes the description,
      a failed one is `DescriptionNotFound` and leaves the entry alone. */
  method GetAndSetDescription(p: LsiPath, disk: Disk, canon: string -> Option<CanonicalPath>)
    returns (r: Result<(), LsiError>)
    modifies p
    ensures r == Ok(()) <==> disk.ReadDescription(p.path.text, p.kind, canon).Ok?
    ensures r.Err? ==> r.error == DescriptionNotFound
    ensures p.description == Loaded(old(p.description), disk.ReadDescription(p.path.text, p.kind, canon))
  {
    var description := match p.kind
      case Dir => disk.ReadDirDescription(p.path.text, canon)
      case File => disk.ReadFileDescription(p.path.text, canon);
    match description {
      case Ok(content) =>
        p.SetDescription(content);
        r := Ok(());
      case Err(_) =>
        r := Err(DescriptionNotFound);
    }
  }

  /** The first `i` entries of `s` carry what was read for them over their
      earlier descriptions `orig`. */
  ghost predicate LoadedUpTo(s: seq<LsiPath>, i: int, orig: seq<Option<string>>, disk: Disk,
                             canon: string -> Option<CanonicalPath>)
    requires |orig| == |s|
    reads disk, set x | x in s
  {
    forall k :: 0 <= k < i && k < |s| ==>
      s[k].description == Loaded(orig[k], disk.ReadDescription(s[k].path.text, s[k].kind, canon))
  }

  /** One turn of `get_and_set_descriptions`: loads entry `i`, dropping
      the error. */
  method LoadNext(s: seq<LsiPath>, i: int, ghost orig: seq<Option<string>>, disk: Disk,
                  canon: string -> Option<CanonicalPath>)
    requires Distinct(s) && 0 <= i < |s| && |orig| == |s|
    requires LoadedUpTo(s, i, orig, disk, canon) && Untouched(s, i, orig)
    modifies s[i]
    ensures LoadedUpTo(s, i + 1, orig, disk, canon) && Untouched(s, i + 1, orig)
  {
    var x := s[i];
    var _ := GetAndSetDescription(x, disk, canon);
  }

  /** `get_and_set_descriptions`: every entry is loaded; failures are
      dropped and the result is always `Ok`. */
  method GetAndSetDescriptions(s: seq<LsiPath>, disk: Disk, canon: string -> Option<CanonicalPath>)
    returns (r: Result<(), LsiError>)
    requires Distinct(s)
    modifies set x | x in s
    ensures r == Ok(())
    ensures forall k :: 0 <= k < |s| ==>
              s[k].description == Loaded(old(s[k].description), disk.ReadDescription(s[k].path.text, s[k].kind, canon))
  {
    ghost var orig := seq(|s|, k reads set x | x in s requires 0 <= k < |s| => s[k].description);
    for i := 0 to |s|
      invariant LoadedUpTo(s, i, orig, disk, canon) && Untouched(s, i, orig)
      invariant forall k :: 0 <= k < |s| ==> orig[k] == old(s[k].description)
    {
      LoadNext(s, i, orig, disk, canon);
    }
    r := Ok(());
  }

  // ---------------------------------------------------------------------
  // run
  // ---------------------------------------------------------------------

  /** The colour section `run` hands to `Colors::new`: none without a
      config path or when the file does not parse. */
  function ColorsConfig(configPath: Option<string>, contents: Option<string>,
                        parse: string -> Option<ConfigFile>): Option<ColorConf>
  {
    match configPath
    case None => None
    case Some(_) =>
      match ReadConfig(contents, parse)
      case None => None
      case Some(c) => c.colors
  }

  /** The palette `run` displays with. */
  function ChosenPalette(configPath: Option<string>, contents: Option<string>,
                         parse: string -> Option<ConfigFile>): Colors
  {
    match ColorsConfig(configPath, contents, parse)
    case None => DefaultPalette()
    case Some(cc) => Palette(cc)
  }

  /** Without a config path the default palette is used, whatever the file
      would hold; with one, a file with a colour section decides every slot. */
  lemma PaletteChoice(configPath: Option<string>, contents: Option<string>, parse: string -> Option<ConfigFile>)
    ensures configPath.None? ==> forall s :: ChosenPalette(configPath, contents, parse).Field(s) == DefaultCode(s)
    ensures configPath.Some? && ReadConfig(contents, parse).Some? && ReadConfig(contents, parse).value.colors.Some? ==>
              var cc := ReadConfig(contents, parse).value.colors.value;
              forall s :: ChosenPalette(configPath, contents, parse).Field(s) == SlotValue(cc, s)
  {
  }

  /** `lsi::run`. The operating system is given as oracles: `listing` is
      what `read_dir` gives for `args.path`, `isDir`/`isFile` classify the
      listed paths, `contents` is the config file's text, `parse` the TOML
      deserialiser, `disk` the sidecar files, `canon` `canonicalize`, and
      `width` the display width. The printed lines are returned. A listing
      failure is `PathNotFound` before anything else; a working directory
      that cannot be canonicalised is `FailedDisplay`; otherwise the
      working-directory line comes first, in the chosen palette, followed
      by one line per kept entry. */
  method Run(args: LsiArgs, listing: Option<seq<FsPath>>, isDir: string -> bool, isFile: string -> bool,
             contents: Option<string>, parse: string -> Option<ConfigFile>, disk: Disk,
             canon: string -> Option<CanonicalPath>, width: string -> nat)
    returns (r: Result<seq<string>, LsiError>)
    ensures listing.None? ==> r == Err(PathNotFound)
    ensures listing.Some? && canon(args.path).None? ==> r == Err(FailedDisplay)
    ensures listing.Some? && canon(args.path).Some? ==>
              r.Ok? && |r.value| == 1 + |Kept(listing.value, args.isOnly, args.showHidden, isDir, isFile)|
              && r.value[0] == Breadcrumb(canon(args.path).value, ChosenPalette(args.configPath, contents, parse))
  {
    var got := GetPathes(listing, args.isOnly, args.showHidden, args.sortMode, isDir, isFile);
    if got.Err? {
      return Err(PathNotFound);
    }
    var pathes := got.value;
    var colors := ReadColors(args.configPath, contents, parse);
    SameModeOfNew(pathes[..], args.sortMode, isDir);
    r := LoadAndDisplay(pathes, colors, args.path, args.descNum, disk, canon, width);
  }

  /** The configuration reading of `run`: the config file is read only when
      a path is given, and its colour section, if any, goes to
      `Colors::new`. */
  method ReadColors(configPath: Option<string>, contents: Option<string>, parse: string -> Option<ConfigFile>)
    returns (colors: Colors)
    ensures colors == ChosenPalette(configPath, contents, parse)
  {
    var config := match configPath
      case Some(_) => ReadConfig(contents, parse)
      case None => None;
    var colorsConfig := match config
      case Some(c) => c.colors
      case None => None;
    colors := New(colorsConfig);
  }

  /** The end of `run`: descriptions are loaded, then the listing is
      displayed; a display failure becomes `FailedDisplay`. */
  method LoadAndDisplay(pathes: array<LsiPath>, colors: Colors, cwd: string, descNum: Option<nat>, disk: Disk,
                        canon: string -> Option<CanonicalPath>, width: string -> nat)
    returns (r: Result<seq<string>, LsiError>)
    requires SameMode(pathes[..]) && Distinct(pathes[..])
    modifies pathes, set k | 0 <= k < pathes.Length :: pathes[k]
    ensures canon(cwd).None? ==> r == Err(FailedDisplay)
    ensures canon(cwd).Some? ==> r.Ok? && |r.value| == pathes.Length + 1 && r.value[0] == Breadcrumb(canon(cwd).value, colors)
  {
    var _ := GetAndSetDescriptions(pathes[..], disk, canon);
    var shown := Display(pathes, colors, cwd, canon, descNum, width);
    match shown {
      case None =>
        return Err(FailedDisplay);
      case Some(lines) =>
        r := Ok(lines);
    }
  }
}
