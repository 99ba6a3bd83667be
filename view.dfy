/** The listing as it is printed (`view.rs`): the working-directory line,
    then one line per entry in sorted order. The printed lines are returned
    as a sequence instead of being written to standard output. */
module View {
  import opened Results
  import opened Colors
  import opened Path
  import opened Decoration
  import opened Fs
  import opened Lex

  /** A palette in which every slot is empty: what is left of a line once
      the colour codes are ignored. */
  const Colorless: Colors := Colors("", "", "", "", "", "", "", "", "", "", "", "", "")

  /** Every component of a canonical path is named, as `canonicalize`
      produces them. */
  predicate Named(p: CanonicalPath)
  {
    match p
    case Root => true
    case Child(q, n) => |n| > 0 && Named(q)
  }

  /** A rendered child path is longer than its last component. */
  lemma {:induction false} RenderChildLength(q: CanonicalPath, n: string)
    ensures |Render(Child(q, n))| > |n|
  {
    match q
    case Root =>
    case Child(q', n') =>
      RenderChildLength(q', n');
  }

  // ---------------------------------------------------------------------
  // display_cwd
  // ---------------------------------------------------------------------

  /** The line `display_cwd` prints for the canonical working directory
      `abs`: the parent in the directory colour (empty when it is the root),
      then the last component in the current-directory colour. The root has
      no parent and no file name. */
  function Breadcrumb(abs: CanonicalPath, c: Colors): string
  {
    match abs
    case Root => c.currentDir + "/" + c.end
    case Child(parent, n) =>
      c.dir + (if Render(parent) == "/" then "" else Render(parent)) + "/" + c.end
      + c.currentDir + n + "/" + c.end
  }

  /** Without colour codes the working-directory line is the canonical path
      with a trailing slash (the root alone is just `/`). */
  lemma BreadcrumbShowsPath(abs: CanonicalPath)
    requires Named(abs)
    ensures Breadcrumb(abs, Colorless) == Render(abs) + (if abs == Root then "" else "/")
  {
    match abs
    case Root =>
    case Child(parent, n) =>
      match parent
      case Root =>
      case Child(q, m) =>
        RenderChildLength(q, m);
  }

  // ---------------------------------------------------------------------
  // display_a_line
  // ---------------------------------------------------------------------

  /** The tree branch drawn before an entry. */
  function Branch(isLast: bool): string
  {
    if isLast then "└──" else "├──"
  }

  /** The line printed for an entry of kind `kind` named `name` whose
      (already decorated) description is `desc`: the kind's colour around the
      name, then the description or, without one, the kind's name. */
  function EntryLine(isLast: bool, kind: Kind, name: string, desc: Option<string>, c: Colors): string
  {
    Branch(isLast) + " " + (if kind == Dir then c.dir else c.file) + name + c.end + "\t/ "
    + (match desc case Some(d) => d case None => if kind == Dir then "Dir" else "File")
  }

  /** The description after `decoration::run`. */
  function DecoratedOpt(d: Option<string>, c: Colors, descNum: Option<nat>, isLast: bool, width: nat): Option<string>
  {
    match d
    case None => None
    case Some(s) => Some(Decorated(s, c, descNum, isLast, width))
  }

  /** Without colour codes, an entry with a one-line description free of
      markers and escapes is shown as branch, name, and the description
      verbatim. */
  lemma PlainEntryLine(isLast: bool, kind: Kind, name: string, d: string, descNum: Option<nat>, width: nat)
    requires ';' !in d && '\\' !in d && '\n' !in d
    ensures EntryLine(isLast, kind, name, DecoratedOpt(Some(d), Colorless, descNum, isLast, width), Colorless)
            == Branch(isLast) + " " + name + "\t/ " + d
  {
    PlainDescriptionKept(d, Colorless, descNum, isLast, width);
  }

  /** `display_a_line`: decorates the entry's description, then returns the
      line printed for it. */
  method DisplayALine(p: LsiPath, isLast: bool, colors: Colors, descNum: Option<nat>, width: string -> nat)
    returns (line: string)
    modifies p
    ensures p.description == DecoratedOpt(old(p.description), colors, descNum, isLast, p.Len(width))
    ensures line == EntryLine(isLast, p.kind, p.FileName(), p.description, colors)
  {
    var _ := Run(p, colors, descNum, isLast, width);
    var prefixChar := if isLast then "└──" else "├──";
    match p.kind {
      case Dir =>
        match p.GetDescription() {
          case Some(description) =>
            line := prefixChar + " " + colors.dir + p.FileName() + colors.end + "\t/ " + description;
          case None =>
            line := prefixChar + " " + colors.dir + p.FileName() + colors.end + "\t/ Dir";
        }
      case File =>
        match p.GetDescription() {
          case Some(description) =>
            line := prefixChar + " " + colors.file + p.FileName() + colors.end + "\t/ " + description;
          case None =>
            line := prefixChar + " " + colors.file + p.FileName() + colors.end + "\t/ File";
        }
    }
  }

  // ---------------------------------------------------------------------
  // display
  // ---------------------------------------------------------------------

  /** The first `i` entries of `s` are decorated (from their descriptions
      `orig`) and `lines` shows them. */
  ghost predicate Shown(s: seq<LsiPath>, lines: seq<string>, i: int, orig: seq<Option<string>>,
                        colors: Colors, descNum: Option<nat>, width: string -> nat)
    requires |orig| == |s|
    reads set x | x in s
  {
    |lines| == i <= |s| &&
    forall k :: 0 <= k < i ==>
      s[k].description == DecoratedOpt(orig[k], colors, descNum, k + 1 == |s|, s[k].Len(width))
      && lines[k] == EntryLine(k + 1 == |s|, s[k].kind, s[k].FileName(), s[k].description, colors)
  }

  /** The entries from `i` on still carry their descriptions `orig`. */
  ghost predicate Untouched(s: seq<LsiPath>, i: int, orig: seq<Option<string>>)
    requires |orig| == |s|
    reads set x | x in s
  {
    forall k :: 0 <= i <= k < |s| ==> s[k].description == orig[k]
  }

  /** One turn of the loop of `display`: shows entry `i`. */
  method ShowNext(s: seq<LsiPath>, i: int, lines: seq<string>, ghost orig: seq<Option<string>>,
                  colors: Colors, descNum: Option<nat>, width: string -> nat)
    returns (lines': seq<string>)
    requires Distinct(s) && 0 <= i < |s| && |orig| == |s|
    requires Shown(s, lines, i, orig, colors, descNum, width) && Untouched(s, i, orig)
    modifies s[i]
    ensures Shown(s, lines', i + 1, orig, colors, descNum, width) && Untouched(s, i + 1, orig)
  {
    var x := s[i];
    var line := DisplayALine(x, i + 1 == |s|, colors, descNum, width);
    lines' := lines + [line];
  }

  /** The loop of `display`: decorates and shows every entry of the sorted
      listing, the last one with the closing branch. */
  method DisplayEntries(s: seq<LsiPath>, colors: Colors, descNum: Option<nat>, width: string -> nat)
    returns (lines: seq<string>)
    requires Distinct(s)
    modifies set x | x in s
    ensures |lines| == |s|
    ensures forall k :: 0 <= k < |s| ==>
              s[k].description == DecoratedOpt(old(s[k].description), colors, descNum, k + 1 == |s|, s[k].Len(width))
    ensures forall k :: 0 <= k < |s| ==>
              lines[k] == EntryLine(k + 1 == |s|, s[k].kind, s[k].FileName(), s[k].description, colors)
  {
    ghost var orig := seq(|s|, k reads set x | x in s requires 0 <= k < |s| => s[k].description);
    lines := [];
    for i := 0 to |s|
      invariant Shown(s, lines, i, orig, colors, descNum, width) && Untouched(s, i, orig)
      invariant forall k :: 0 <= k < |s| ==> orig[k] == old(s[k].description)
    {
      lines := ShowNext(s, i, lines, orig, colors, descNum, width);
    }
  }

  /** Each entry of `a` is `<=` every later one, compared as they were in
      the earlier state. */
  twostate predicate SortedOnEntry(a: array<LsiPath>)
    reads a
  {
    forall i, j :: 0 <= i < j < a.Length ==>
      var x, y := a[i], a[j];
      old(allocated(x)) && old(allocated(y)) && Cmp(old(x.View()), old(y.View())) != Greater
  }

  /** Every entry of `a` still has the description it had in the earlier
      state. */
  twostate predicate KeptOnEntry(a: array<LsiPath>)
    reads a, set k | 0 <= k < a.Length :: a[k]
  {
    forall k :: 0 <= k < a.Length ==>
      var x := a[k]; old(allocated(x)) && x.description == old(x.description)
  }

  /** Every entry of `a` carries its earlier description after
      `decoration::run`, the last entry decorated as the last. */
  twostate predicate DecoratedOnEntry(a: array<LsiPath>, colors: Colors, descNum: Option<nat>, width: string -> nat)
    reads a, set k | 0 <= k < a.Length :: a[k]
  {
    forall k :: 0 <= k < a.Length ==>
      var x := a[k];
      old(allocated(x)) && x.description == DecoratedOpt(old(x.description), colors, descNum, k + 1 == a.Length, x.Len(width))
  }

  /** `lines` shows the entries of `a` in order, the last one closing the
      tree. */
  ghost predicate ShowsEntries(lines: seq<string>, a: array<LsiPath>, colors: Colors)
    reads a, set k | 0 <= k < a.Length :: a[k]
  {
    |lines| == a.Length &&
    forall k :: 0 <= k < a.Length ==>
      lines[k] == EntryLine(k + 1 == a.Length, a[k].kind, a[k].FileName(), a[k].description, colors)
  }

  /** `pathes.sort()` inside `display`: a sorted reordering of the same
      entries. */
  method SortListing(a: array<LsiPath>)
    requires SameMode(a[..]) && Distinct(a[..])
    modifies a
    ensures multiset(a[..]) == multiset(old(a[..]))
    ensures Distinct(a[..])
    ensures forall k :: 0 <= k < a.Length ==> a[k] in old(a[..])
    ensures SortedOnEntry(a) && KeptOnEntry(a)
  {
    ghost var before := a[..];
    SortPaths(a);
    PermutationDistinct(before, a[..]);
  }

  /** The part of `display` after the working-directory line: sorts the
      entries, then decorates and shows each in turn. */
  method ShowSorted(a: array<LsiPath>, colors: Colors, descNum: Option<nat>, width: string -> nat)
    returns (lines: seq<string>)
    requires SameMode(a[..]) && Distinct(a[..])
    modifies a, set k | 0 <= k < a.Length :: a[k]
    ensures multiset(a[..]) == multiset(old(a[..]))
    ensures SortedOnEntry(a) && DecoratedOnEntry(a, colors, descNum, width)
    ensures ShowsEntries(lines, a, colors)
  {
    SortListing(a);
    lines := DisplayEntries(a[..], colors, descNum, width);
  }

  /** `display`. When the working directory cannot be canonicalised nothing
      is sorted, decorated or shown. Otherwise the working-directory line
      comes first, then the entries, sorted by their descriptions as they
      were before decoration, one line each, the last one closing the tree. */
  method Display(a: array<LsiPath>, colors: Colors, cwd: string, canon: string -> Option<CanonicalPath>,
                 descNum: Option<nat>, width: string -> nat)
    returns (r: Option<seq<string>>)
    requires SameMode(a[..]) && Distinct(a[..])
    modifies a, set k | 0 <= k < a.Length :: a[k]
    ensures canon(cwd).None? ==> r == None && a[..] == old(a[..]) && KeptOnEntry(a)
    ensures canon(cwd).Some? ==> r.Some? && |r.value| == a.Length + 1
    ensures canon(cwd).Some? ==> r.value[0] == Breadcrumb(canon(cwd).value, colors)
    ensures canon(cwd).Some? ==> multiset(a[..]) == multiset(old(a[..]))
    ensures canon(cwd).Some? ==> SortedOnEntry(a) && DecoratedOnEntry(a, colors, descNum, width)
    ensures canon(cwd).Some? ==> ShowsEntries(r.value[1..], a, colors)
  {
    match canon(cwd) {
      case None =>
        return None;
      case Some(abs) =>
        var head := Breadcrumb(abs, colors);
        var lines := ShowSorted(a, colors, descNum, width);
        r := Some([head] + lines);
        assert r.value[1..] == lines;
    }
  }
}
