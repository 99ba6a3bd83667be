/** The entry model of `src/path.rs`: one listed file or directory with its
    optional description and the sort-mode token, the keys that order
    entries, and the comparison `Vec<LsiPath>::sort` uses. */
module Path {
  import opened Results
  import opened Strings
  import opened Lex

  /** `LsiPathKind`. */
  datatype Kind = Dir | File

  /** The final component of a path as the OS returns it: UTF-8 text or not. */
  datatype OsName = Utf8(text: string) | NotUtf8

  /** A filesystem path: its text and what `Path::file_name` answers for it
      (`None` for `/` and for a path that ends in `..`). */
  datatype FsPath = FsPath(text: string, fileName: Option<OsName>)

  /** `LsiPath::file_name`: the final component, or "" when there is none or
      it is not UTF-8. */
  function FileNameOf(p: FsPath): string
  {
    match p.fileName
    case Some(Utf8(n)) => n
    case _ => ""
  }

  /** `LsiPath::is_hidden`: the final component exists, is UTF-8 and starts
      with a period. Because `FileNameOf` is "" exactly when there is no UTF-8
      final component, this is a property of the displayed name alone. */
  function IsHidden(p: FsPath): (r: bool)
    ensures r <==> |FileNameOf(p)| > 0 && FileNameOf(p)[0] == '.'
    ensures r ==> p.fileName.Some? && p.fileName.value.Utf8?
  {
    match p.fileName
    case Some(Utf8(n)) => |n| > 0 && n[0] == '.'
    case _ => false
  }

  /** The regex `;.;` replaced by nothing, scanning left to right and
      resuming after each match; `.` is any character but a newline. */
  function StripMarkers(s: string): (r: string)
    ensures |r| <= |s|
  {
    if |s| >= 3 && s[0] == ';' && s[1] != '\n' && s[2] == ';' then StripMarkers(s[3..])
    else if |s| == 0 then ""
    else [s[0]] + StripMarkers(s[1..])
  }

  /** The four-character text `\033` (backslash, zero, three, three). */
  const EscapeText: string := "\\033"

  /** `get_plain_description` on a present description. */
  function Plain(d: string): string
  {
    ReplaceAll(StripMarkers(d), EscapeText, "")
  }

  /** `LsiPath::get_plain_description`: absent exactly when the description
      is; text without markers or backslashes comes back unchanged. */
  function PlainOf(d: Option<string>): (r: Option<string>)
    ensures r.None? <==> d.None?
    ensures d.Some? && ';' !in d.value && '\\' !in d.value ==> r == d
  {
    match d
    case None => None
    case Some(s) =>
      if ';' !in s && '\\' !in s then
        StripMarkersWithoutSemicolon(s);
        ContainsNeedsFirstChar(s, EscapeText);
        ReplaceAllAbsent(s, EscapeText, "");
        Some(Plain(s))
      else Some(Plain(s))
  }

  lemma {:induction false} StripMarkersWithoutSemicolon(s: string)
    requires ';' !in s
    ensures StripMarkers(s) == s
  {
    if |s| > 0 {
      StripMarkersWithoutSemicolon(s[1..]);
      assert s == [s[0]] + s[1..];
    }
  }

  /** "0" for a directory, "1" for a file: the first character of every key. */
  function KindDigit(kind: Kind): string
  {
    if kind == Dir then "0" else "1"
  }

  /** `format_name`. */
  function FormatName(kind: Kind, name: string): string
  {
    KindDigit(kind) + "_" + name
  }

  /** `format_description`, given the plain description. */
  function FormatDescription(kind: Kind, name: string, plain: Option<string>): string
  {
    match plain
    case Some(d) => KindDigit(kind) + "_0_" + d + name
    case None => KindDigit(kind) + "_1_" + name
  }

  /** What the comparisons read of an entry. */
  datatype EntryView = EntryView(kind: Kind, name: string, description: Option<string>, sortMode: string)

  /** The key of `e` in a comparison run in `mode`: by description in mode
      "d", by name in every other mode. */
  function KeyIn(mode: string, e: EntryView): string
  {
    if mode == "d" then FormatDescription(e.kind, e.name, PlainOf(e.description))
    else FormatName(e.kind, e.name)
  }

  /** `format_for_eq`: both keys, built in the LEFT operand's mode. */
  function FormatForEq(e1: EntryView, e2: EntryView): (string, string)
  {
    (KeyIn(e1.sortMode, e1), KeyIn(e1.sortMode, e2))
  }

  /** `PartialEq::eq for LsiPath`. */
  function Eq(e1: EntryView, e2: EntryView): bool
  {
    FormatForEq(e1, e2).0 == FormatForEq(e1, e2).1
  }

  /** `Ord::cmp for LsiPath`: the byte order of the two keys; `Equal`
      exactly when `eq` holds. */
  function Cmp(e1: EntryView, e2: EntryView): (o: Ordering)
    ensures o == Equal <==> Eq(e1, e2)
  {
    Compare(FormatForEq(e1, e2).0, FormatForEq(e1, e2).1)
  }

  /** `LsiPath`. The path, the kind and the sort mode are fixed at
      construction; only the description changes. */
  class LsiPath {
    const path: FsPath
    const kind: Kind
    const sortMode: string
    var description: Option<string>

    /** `LsiPath::new`; `isDir` is what `Path::is_dir` answers for `path`. */
    constructor (path: FsPath, sortMode: string, isDir: bool)
      ensures this.path == path && this.sortMode == sortMode
      ensures kind == (if isDir then Dir else File)
      ensures description == None
    {
      this.path := path;
      this.sortMode := sortMode;
      this.kind := if isDir then Dir else File;
      this.description := None;
    }

    /** `LsiPath::file_name`. */
    function FileName(): string
    {
      FileNameOf(path)
    }

    /** `LsiPath::get_description`. */
    function GetDescription(): Option<string>
      reads this
    {
      description
    }

    /** `LsiPath::set_description`. */
    method SetDescription(d: string)
      modifies this
      ensures GetDescription() == Some(d)
    {
      description := Some(d);
    }

    /** `LsiPath::get_plain_description`. */
    function PlainDescription(): Option<string>
      reads this
    {
      PlainOf(description)
    }

    /** What the comparisons read of this entry. */
    function View(): EntryView
      reads this
    {
      EntryView(kind, FileName(), description, sortMode)
    }

    /** `LsiPath::len`: the display width of the name; `width` stands for
        `UnicodeWidthStr::width`. */
    function Len(width: string -> nat): nat
    {
      width(FileName())
    }

    /** `LsiPath::is_empty`. */
    function IsEmpty(width: string -> nat): (r: bool)
      ensures r <==> Len(width) == 0
    {
      Len(width) == 0
    }
  }

  /** `a <= b` under `Ord for LsiPath`. */
  predicate Le(a: LsiPath, b: LsiPath)
    reads a, b
  {
    Cmp(a.View(), b.View()) != Greater
  }

  /** All entries of `a` carry one sort mode, as `get_pathes` builds them. */
  predicate SameMode(s: seq<LsiPath>)
  {
    forall i, j :: 0 <= i < |s| && 0 <= j < |s| ==> s[i].sortMode == s[j].sortMode
  }

  // ---------------------------------------------------------------------
  // The order
  // ---------------------------------------------------------------------

  /** Every key starts with the kind digit. */
  lemma KeyStartsWithKind(mode: string, e: EntryView)
    ensures |KeyIn(mode, e)| > 0 && KeyIn(mode, e)[0] == KindDigit(e.kind)[0]
  {
  }

  /** Directories come before files, in every sort mode and whichever
      operand's mode is used. */
  lemma DirsBeforeFiles(d: EntryView, f: EntryView)
    requires d.kind == Dir && f.kind == File
    ensures Cmp(d, f) == Less && Cmp(f, d) == Greater
  {
    KeyStartsWithKind(d.sortMode, d);
    KeyStartsWithKind(d.sortMode, f);
    KeyStartsWithKind(f.sortMode, d);
    KeyStartsWithKind(f.sortMode, f);
  }

  /** Outside mode "d" the order is the kind, then the name, and the
      description plays no part. */
  lemma NameModeOrder(e1: EntryView, e2: EntryView)
    requires e1.sortMode != "d" && e1.kind == e2.kind
    ensures Cmp(e1, e2) == Compare(e1.name, e2.name)
  {
    assert KeyIn(e1.sortMode, e1) == (KindDigit(e1.kind) + "_") + e1.name;
    assert KeyIn(e1.sortMode, e2) == (KindDigit(e1.kind) + "_") + e2.name;
    CompareCommonPrefix(KindDigit(e1.kind) + "_", e1.name, e2.name);
  }

  /** In mode "d", within one kind, a described entry comes before an
      undescribed one. */
  lemma DescribedFirst(e1: EntryView, e2: EntryView)
    requires e1.sortMode == "d" && e1.kind == e2.kind
    requires e1.description.Some? && e2.description.None?
    ensures Cmp(e1, e2) == Less && Cmp(e2.(sortMode := "d"), e1) == Greater
  {
    var p := KindDigit(e1.kind) + "_";
    var k1 := KeyIn("d", e1);
    var k2 := KeyIn("d", e2);
    assert k1 == p + ("0_" + PlainOf(e1.description).value + e1.name);
    assert k2 == p + ("1_" + e2.name);
    CompareCommonPrefix(p, "0_" + PlainOf(e1.description).value + e1.name, "1_" + e2.name);
    CompareCommonPrefix(p, "1_" + e2.name, "0_" + PlainOf(e1.description).value + e1.name);
  }

  /** In mode "d", two described entries of one kind compare by plain
      description followed by name. */
  lemma DescriptionModeOrder(e1: EntryView, e2: EntryView)
    requires e1.sortMode == "d" && e1.kind == e2.kind
    requires e1.description.Some? && e2.description.Some?
    ensures Cmp(e1, e2) == Compare(Plain(e1.description.value) + e1.name, Plain(e2.description.value) + e2.name)
  {
    var p := KindDigit(e1.kind) + "_0_";
    assert KeyIn("d", e1) == p + (Plain(e1.description.value) + e1.name);
    assert KeyIn("d", e2) == p + (Plain(e2.description.value) + e2.name);
    CompareCommonPrefix(p, Plain(e1.description.value) + e1.name, Plain(e2.description.value) + e2.name);
  }

  /** For entries of one sort mode the comparison is a total order on keys:
      swapping the operands reverses it ... */
  lemma CmpAntisymmetric(e1: EntryView, e2: EntryView)
    requires e1.sortMode == e2.sortMode
    ensures Cmp(e1, e2) == Less <==> Cmp(e2, e1) == Greater
    ensures Cmp(e1, e2) == Equal <==> Cmp(e2, e1) == Equal
  {
    var m := e1.sortMode;
    if LexLe(KeyIn(m, e1), KeyIn(m, e2)) && LexLe(KeyIn(m, e2), KeyIn(m, e1)) {
      LexLeAntisymmetric(KeyIn(m, e1), KeyIn(m, e2));
    }
    LexLeTotal(KeyIn(m, e1), KeyIn(m, e2));
  }

  /** ... every two entries are comparable ... */
  lemma CmpTotal(e1: EntryView, e2: EntryView)
    requires e1.sortMode == e2.sortMode
    ensures Cmp(e1, e2) != Greater || Cmp(e2, e1) != Greater
  {
    LexLeTotal(KeyIn(e1.sortMode, e1), KeyIn(e1.sortMode, e2));
  }

  /** ... and `<=` is transitive. */
  lemma CmpTransitive(e1: EntryView, e2: EntryView, e3: EntryView)
    requires e1.sortMode == e2.sortMode == e3.sortMode
    requires Cmp(e1, e2) != Greater && Cmp(e2, e3) != Greater
    ensures Cmp(e1, e3) != Greater
  {
    var m := e1.sortMode;
    LexLeTransitive(KeyIn(m, e1), KeyIn(m, e2), KeyIn(m, e3));
  }

  /** The mode is read from the left operand only, so entries with different
      modes can each compare below the other. */
  lemma MixedModesBreakAntisymmetry()
    ensures var a := EntryView(Dir, "b", Some("z"), "d");
            var b := EntryView(Dir, "a", None, "p");
            Cmp(a, b) == Less && Cmp(b, a) == Less
  {
    var a := EntryView(Dir, "b", Some("z"), "d");
    var b := EntryView(Dir, "a", None, "p");
    assert PlainOf(a.description) == Some("z");
    assert KeyIn("d", a) == "0_" + ("0_zb");
    assert KeyIn("d", b) == "0_" + ("1_a");
    CompareCommonPrefix("0_", "0_zb", "1_a");
    assert KeyIn("p", b) == "0_" + "a";
    assert KeyIn("p", a) == "0_" + "b";
    CompareCommonPrefix("0_", "a", "b");
  }

  // ---------------------------------------------------------------------
  // Vec<LsiPath>::sort
  // ---------------------------------------------------------------------

  /** `pathes.sort()`: reorders the entries so that each is `<=` every later
      one, keeping the same entries. All entries must share one sort mode,
      which `get_pathes` guarantees; otherwise `Ord` is not a total order. */
  method SortPaths(a: array<LsiPath>)
    requires SameMode(a[..])
    modifies a
    ensures multiset(a[..]) == multiset(old(a[..]))
    ensures forall i, j :: 0 <= i < j < a.Length ==> Le(a[i], a[j])
  {
    if a.Length == 0 { return; }
    var m := a[0].sortMode;
    ghost var keys := seq(a.Length, k reads a, a[..] requires 0 <= k < a.Length => KeyIn(m, a[k].View()));
    var i := 1;
    while i < a.Length
      invariant 1 <= i <= a.Length
      invariant multiset(a[..]) == multiset(old(a[..]))
      invariant AllInMode(a[..], m)
      invariant KeysOf(a[..], keys, m)
      invariant forall p, q :: 0 <= p < q < i ==> LexLe(keys[p], keys[q])
    {
      keys := InsertLast(a, i, m, keys);
      i := i + 1;
    }
    forall p, q | 0 <= p < q < a.Length
      ensures Le(a[p], a[q])
    {
      CmpIsKeyOrder(a[p].View(), a[q].View());
    }
  }

  /** No entry occurs twice. */
  predicate Distinct<T(==)>(s: seq<T>)
  {
    forall i, j :: 0 <= i < j < |s| ==> s[i] != s[j]
  }

  /** In a sequence without repetitions every element occurs at most once. */
  lemma {:induction false} DistinctCounts<T>(s: seq<T>)
    requires Distinct(s)
    ensures forall x :: multiset(s)[x] <= 1
  {
    if |s| > 0 {
      var s', last := s[..|s| - 1], s[|s| - 1];
      assert Distinct(s');
      DistinctCounts(s');
      assert s == s' + [last];
      assert forall k :: 0 <= k < |s'| ==> s'[k] == s[k];
      assert last !in s';
    }
  }

  /** A repeated element occurs at least twice. */
  lemma RepeatCounts<T>(t: seq<T>, i: int, j: int)
    requires 0 <= i < j < |t| && t[i] == t[j]
    ensures multiset(t)[t[i]] >= 2
  {
    assert t == t[..i] + [t[i]] + t[i + 1..j] + [t[j]] + t[j + 1..];
  }

  /** A reordering of a sequence without repetitions has none either. */
  lemma PermutationDistinct<T>(s: seq<T>, t: seq<T>)
    requires multiset(s) == multiset(t) && Distinct(s)
    ensures Distinct(t)
    ensures forall k :: 0 <= k < |t| ==> t[k] in s
  {
    assert forall k :: 0 <= k < |t| ==> t[k] in multiset(s);
    DistinctCounts(s);
    forall i, j | 0 <= i < j < |t|
      ensures t[i] != t[j]
    {
      if t[i] == t[j] {
        RepeatCounts(t, i, j);
      }
    }
  }

  /** Every entry of `s` carries the sort mode `m`. */
  predicate AllInMode(s: seq<LsiPath>, m: string)
  {
    forall k :: 0 <= k < |s| ==> s[k].sortMode == m
  }

  /** `keys` lists the comparison key of each entry of `s` in mode `m`. */
  ghost predicate KeysOf(s: seq<LsiPath>, keys: seq<string>, m: string)
    reads set k | 0 <= k < |s| :: s[k]
  {
    |keys| == |s| && forall k :: 0 <= k < |s| ==> keys[k] == KeyIn(m, s[k].View())
  }

  /** Between entries of one mode, `<=` is the lexicographic order of keys. */
  lemma CmpIsKeyOrder(e1: EntryView, e2: EntryView)
    ensures Cmp(e1, e2) != Greater <==> LexLe(KeyIn(e1.sortMode, e1), KeyIn(e1.sortMode, e2))
  {
  }

  /** The keys `k[..i+1]` are in order except possibly at the moving
      position `j`. */
  ghost predicate SortedExcept(k: seq<string>, i: int, j: int)
    requires 0 <= j <= i < |k|
  {
    forall p, q :: 0 <= p < q <= i && q != j ==> LexLe(k[p], k[q])
  }

  /** Swapping the moving key with a greater left neighbour keeps the
      insertion invariant, one position further left. */
  lemma SwapKeepsOrder(k: seq<string>, i: int, j: int)
    requires 0 < j <= i < |k| && SortedExcept(k, i, j) && !LexLe(k[j - 1], k[j])
    ensures SortedExcept(k[j - 1 := k[j]][j := k[j - 1]], i, j - 1)
  {
    LexLeTotal(k[j - 1], k[j]);
  }

  /** Once the moving key is not less than its left neighbour, the whole
      prefix is in order. */
  lemma InsertedInOrder(k: seq<string>, i: int, j: int)
    requires 0 <= j <= i < |k| && SortedExcept(k, i, j)
    requires j == 0 || LexLe(k[j - 1], k[j])
    ensures forall p, q :: 0 <= p < q <= i ==> LexLe(k[p], k[q])
  {
    forall p, q | 0 <= p < q <= i
      ensures LexLe(k[p], k[q])
    {
      if q == j && p < j - 1 {
        LexLeTransitive(k[p], k[j - 1], k[j]);
      }
    }
  }

  /** One step of the insertion sort: moves `a[i]` down into the sorted
      prefix `a[..i]`, and returns the keys in their new order. */
  method InsertLast(a: array<LsiPath>, i: int, ghost m: string, ghost keys: seq<string>) returns (ghost keys': seq<string>)
    requires 0 < i < a.Length
    requires AllInMode(a[..], m) && KeysOf(a[..], keys, m)
    requires forall p, q :: 0 <= p < q < i ==> LexLe(keys[p], keys[q])
    modifies a
    ensures multiset(a[..]) == multiset(old(a[..]))
    ensures AllInMode(a[..], m) && KeysOf(a[..], keys', m)
    ensures forall p, q :: 0 <= p < q <= i ==> LexLe(keys'[p], keys'[q])
  {
    var j := i;
    keys' := keys;
    while j > 0 && !Le(a[j - 1], a[j])
      invariant 0 <= j <= i
      invariant multiset(a[..]) == multiset(old(a[..]))
      invariant AllInMode(a[..], m) && KeysOf(a[..], keys', m)
      invariant SortedExcept(keys', i, j)
    {
      CmpIsKeyOrder(a[j - 1].View(), a[j].View());
      SwapKeepsOrder(keys', i, j);
      keys' := SwapDown(a, j, m, keys');
      j := j - 1;
    }
    if j > 0 {
      CmpIsKeyOrder(a[j - 1].View(), a[j].View());
    }
    InsertedInOrder(keys', i, j);
  }

  /** Exchanges `a[j - 1]` and `a[j]` together with their keys. */
  method SwapDown(a: array<LsiPath>, j: int, ghost m: string, ghost keys: seq<string>) returns (ghost keys': seq<string>)
    requires 0 < j < a.Length
    requires AllInMode(a[..], m) && KeysOf(a[..], keys, m)
    modifies a
    ensures a[..] == old(a[..])[j - 1 := old(a[j])][j := old(a[j - 1])]
    ensures multiset(a[..]) == multiset(old(a[..]))
    ensures AllInMode(a[..], m) && KeysOf(a[..], keys', m)
    ensures keys' == keys[j - 1 := keys[j]][j := keys[j - 1]]
  {
    ghost var s := a[..];
    a[j - 1], a[j] := a[j], a[j - 1];
    keys' := keys[j - 1 := keys[j]][j := keys[j - 1]];
    assert a[..] == s[j - 1 := s[j]][j := s[j - 1]];
    SwapMultiset(s, j);
    forall k | 0 <= k < a.Length
      ensures a[..][k].sortMode == m && keys'[k] == KeyIn(m, a[..][k].View())
    {
      if k == j - 1 {
        assert a[..][k] == s[j];
      } else if k == j {
        assert a[..][k] == s[j - 1];
      } else {
        assert a[..][k] == s[k];
      }
    }
  }

  /** Exchanging two neighbours keeps the multiset. */
  lemma SwapMultiset<T>(s: seq<T>, j: int)
    requires 0 < j < |s|
    ensures multiset(s[j - 1 := s[j]][j := s[j - 1]]) == multiset(s)
  {
    var t := s[j - 1 := s[j]][j := s[j - 1]];
    assert s == s[..j - 1] + [s[j - 1], s[j]] + s[j + 1..];
    assert t == s[..j - 1] + [s[j], s[j - 1]] + s[j + 1..];
  }
}
