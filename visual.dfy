/** `ls_improved/lsi_visual.py`: the transforms that turn one item (a path,
    an optional description, a type, a depth) into the line printed for it.
    The item is a record the transforms update in place, so it is a class
    here; the strings each transform produces are functions beside it. */
module Visual {
  import opened Results
  import opened Strings
  import opened ImprovedConfig
  import Text

  // ---------------------------------------------------------------------
  // _add_indent_to_new_line
  // ---------------------------------------------------------------------

  /** `'\n;dw;│;se;' + ' '*(3*(depth+1) + path_length + 3)`: what every
      newline of a description becomes. */
  function Blank(depth: nat, pathLength: nat): string
  {
    "\n" + Tag(DescriptionWhite) + "│" + Tag(SearchEnd) + Repeat(' ', 3 * (depth + 1) + pathLength + 3)
  }

  /** `set(line) == set(' ') or line == ''`. */
  predicate AllSpaces(line: string)
  {
    forall i :: 0 <= i < |line| ==> line[i] == ' '
  }

  /** The lines kept: with two or more lines, a last line that is empty or
      all spaces is dropped. */
  function KeptLines(lines: seq<string>): seq<string>
  {
    if |lines| >= 2 && AllSpaces(lines[|lines| - 1]) then lines[..|lines| - 1] else lines
  }

  /** The description `_add_indent_to_new_line` stores: the kept lines
      joined by the blank, then `;end;`. */
  function Indented(d: string, depth: nat, pathLength: nat): string
  {
    Join(KeptLines(Split(d, '\n')), Blank(depth, pathLength)) + Tag(End)
  }

  /** The blank holds exactly one newline. */
  lemma BlankNewlines(depth: nat, pathLength: nat)
    ensures Count(Blank(depth, pathLength), '\n') == 1
  {
    var rest := Tag(DescriptionWhite) + "│" + Tag(SearchEnd) + Repeat(' ', 3 * (depth + 1) + pathLength + 3);
    assert Blank(depth, pathLength) == "\n" + rest;
    assert '\n' !in rest;
    CountAbsent(rest, '\n');
    CountConcat("\n", rest, '\n');
  }

  /** Every newline of the description survives as the newline of one
      blank, except the one before a dropped blank last line. */
  lemma IndentedNewlines(d: string, depth: nat, pathLength: nat)
    ensures var lines := Split(d, '\n');
            Count(Indented(d, depth, pathLength), '\n') ==
              if |lines| >= 2 && AllSpaces(lines[|lines| - 1]) then Count(d, '\n') - 1 else Count(d, '\n')
  {
    var lines := Split(d, '\n');
    SplitCount(d, '\n');
    var kept := KeptLines(lines);
    assert forall k :: 0 <= k < |kept| ==> kept[k] == lines[k];
    CountJoin(kept, Blank(depth, pathLength), '\n');
    BlankNewlines(depth, pathLength);
    CountConcat(Join(kept, Blank(depth, pathLength)), Tag(End), '\n');
    CountAbsent(Tag(End), '\n');
  }

  /** A description of one line is only closed with `;end;`. */
  lemma IndentedOneLine(d: string, depth: nat, pathLength: nat)
    requires '\n' !in d
    ensures Indented(d, depth, pathLength) == d + Tag(End)
  {
    CountAbsent(d, '\n');
    SplitCount(d, '\n');
    SplitJoin(d, "\n");
  }

  // ---------------------------------------------------------------------
  // _add_color_to_path
  // ---------------------------------------------------------------------

  /** A `Dir` path between the `dir` colour and `end`, a `File` path between
      the `file` colour and `end`, any other path as it is. */
  function ColoredPath(path: string, kind: string): string
  {
    if kind == "Dir" then Color(Dir) + path + Color(End)
    else if kind == "File" then Color(File) + path + Color(End)
    else path
  }

  /** The colours `_add_color_to_path` asks `get_color` for are found. */
  lemma PathColorsFound()
    ensures GetColor("dir") == Some(Color(Dir))
    ensures GetColor("file") == Some(Color(File))
    ensures GetColor("end") == Some(Color(End))
  {
    GetColorOfName(Dir);
    GetColorOfName(File);
    GetColorOfName(End);
  }

  /** The coloured path is the path with its colour in front and `end`
      behind, so cutting both off gives it back. */
  lemma ColoredPathStrips(path: string, kind: string)
    requires kind == "Dir" || kind == "File"
    ensures var c := if kind == "Dir" then UnderlineCode + CyanCode else WhiteCode;
            var r := ColoredPath(path, kind);
            c <= r && |r| == |c| + |path| + |EndCode| && r[|c|..|c| + |path|] == path
            && r[|c| + |path|..] == EndCode
  {
  }

  // ---------------------------------------------------------------------
  // _tag2color
  // ---------------------------------------------------------------------

  /** The path with `;ss;` turned into the search colour and `;se;` into
      END followed by the colour of the item's type; `None` where
      `get_color(item['type'])` raises `KeyError`. */
  function MarkedPath(path: string, kind: string): Option<string>
  {
    match GetColor(kind)
    case None => None
    case Some(c) =>
      TagsAreMarkers(Search);
      TagsAreMarkers(SearchEnd);
      Some(ReplaceAll(ReplaceAll(path, Tag(Search), Color(Search)), Tag(SearchEnd), Color(SearchEnd) + c))
  }

  /** A path without the tag symbol is left as it is; a `Dir` or `File`
      item never raises. */
  lemma MarkedPathPlain(path: string, kind: string)
    requires kind == "Dir" || kind == "File"
    ensures MarkedPath(path, kind).Some?
    ensures Symbol !in path ==> MarkedPath(path, kind) == Some(path)
  {
    if kind == "Dir" {
      GetColorOfName(Dir);
      assert Lower(kind) == "dir" by { assert Lower(kind) == [LowerChar('D'), LowerChar('i'), LowerChar('r')]; }
    } else {
      GetColorOfName(File);
      assert Lower(kind) == "file" by {
        assert Lower(kind) == [LowerChar('F'), LowerChar('i'), LowerChar('l'), LowerChar('e')];
      }
    }
    if Symbol !in path {
      TagsAreMarkers(Search);
      TagsAreMarkers(SearchEnd);
      ContainsNeedsFirstChar(path, Tag(Search));
      ReplaceAllAbsent(path, Tag(Search), Color(Search));
      ContainsNeedsFirstChar(path, Tag(SearchEnd));
      ReplaceAllAbsent(path, Tag(SearchEnd), Color(SearchEnd) + GetColor(kind).value);
    }
  }

  /** One segment's text with `;ss;`, `;dw;` and `;se;` turned into
      colours, `;se;` going back to the segment's own colour `c`. */
  function Recolored(text: string, c: string): string
  {
    TagsAreMarkers(Search);
    TagsAreMarkers(DescriptionWhite);
    TagsAreMarkers(SearchEnd);
    ReplaceAll(ReplaceAll(ReplaceAll(text, Tag(Search), Color(Search)),
                          Tag(DescriptionWhite), Color(DescriptionWhite)),
               Tag(SearchEnd), Color(SearchEnd) + c)
  }

  /** The segments, each as `color[tag]` followed by its recoloured text;
      `None` where `config.color[tag]` raises `KeyError`. */
  function ColoredSegments(ps: seq<Text.Piece>): Option<string>
    decreases |ps|
  {
    if |ps| == 0 then Some("")
    else
      var p := ps[|ps| - 1];
      match ColoredSegments(ps[..|ps| - 1])
      case None => None
      case Some(prefix) =>
        match ColorOfTag(p.tag)
        case None => None
        case Some(c) => Some(prefix + c + Recolored(p.text, c))
  }

  /** The description `_tag2color` builds: the description split on the
      tags in `order`, starting under `;desc;`, then coloured. */
  function ColoredDescription(d: string, order: seq<TagName>): Option<string>
  {
    ColoredSegments(Text.FreshPieces(d, Tag(Description), order))
  }

  /** Segments whose tags all have colours are always coloured. */
  lemma {:induction false} ColoredSegmentsDefined(ps: seq<Text.Piece>)
    requires forall i :: 0 <= i < |ps| ==> ColorOfTag(ps[i].tag).Some?
    ensures ColoredSegments(ps).Some?
    decreases |ps|
  {
    if |ps| > 0 {
      ColoredSegmentsDefined(ps[..|ps| - 1]);
    }
  }

  /** With the tags of the table as the split order, every segment carries
      a tag of the table, so `_tag2color` never raises on a description. */
  lemma ColoredDescriptionDefined(d: string, order: seq<TagName>)
    requires IsSplitOrder(order)
    ensures ColoredDescription(d, order).Some?
  {
    var ps := Text.FreshPieces(d, Tag(Description), order);
    Text.FreshPiecesTags(d, Tag(Description), order);
    forall i | 0 <= i < |ps| ensures ColorOfTag(ps[i].tag).Some? {
      if ps[i].tag == Tag(Description) {
        ParseRoundTrip(Description);
      } else {
        var t :| t in order && ps[i].tag == Tag(t);
        ParseRoundTrip(t);
      }
    }
    ColoredSegmentsDefined(ps);
  }

  /** A text without the tag symbol is not recoloured. */
  lemma RecoloredPlain(text: string, c: string)
    requires Symbol !in text
    ensures Recolored(text, c) == text
  {
    TagsAreMarkers(Search);
    TagsAreMarkers(DescriptionWhite);
    TagsAreMarkers(SearchEnd);
    ContainsNeedsFirstChar(text, Tag(Search));
    ReplaceAllAbsent(text, Tag(Search), Color(Search));
    ContainsNeedsFirstChar(text, Tag(DescriptionWhite));
    ReplaceAllAbsent(text, Tag(DescriptionWhite), Color(DescriptionWhite));
    ContainsNeedsFirstChar(text, Tag(SearchEnd));
    ReplaceAllAbsent(text, Tag(SearchEnd), Color(SearchEnd) + c);
  }

  /** Without the tag symbol no split happens. */
  lemma PlainIsOnePiece(d: string, order: seq<TagName>)
    requires Symbol !in d
    ensures Text.FreshPieces(d, Tag(Description), order) == [Text.Piece(Tag(Description), d)]
  {
    forall t | t in order ensures !Contains(d, Tag(t)) {
      TagsAreMarkers(t);
      ContainsNeedsFirstChar(d, Tag(t));
    }
    Text.NoTagOnePiece(d, Tag(Description), order);
  }

  /** A description without the tag symbol is one segment: the description
      colour followed by the description. */
  lemma ColoredDescriptionPlain(d: string, order: seq<TagName>)
    requires Symbol !in d
    ensures ColoredDescription(d, order) == Some(YellowCode + d)
  {
    PlainIsOnePiece(d, order);
    var p := Text.Piece(Tag(Description), d);
    assert [p][..0] == [];
    ParseRoundTrip(Description);
    assert ColorOfTag(p.tag) == Some(YellowCode);
    RecoloredPlain(d, YellowCode);
    assert ColoredSegments([p]) == Some("" + YellowCode + d);
    assert "" + YellowCode + d == YellowCode + d;
    assert Text.FreshPieces(d, Tag(Description), order) == [p];
  }

  // ---------------------------------------------------------------------
  // _select_indent_head and _concat_item
  // ---------------------------------------------------------------------

  /** `get_color('description_white') + '│' + get_color('search_end')`:
      the continuation bar of a description line. */
  const Bar: string := WhiteCode + "│" + EndCode

  /** What the bar becomes under the last item: `get_color('search_end') + ' '`. */
  const NoBar: string := EndCode + " "

  /** The head of an item's line: `├` at place 0, `└` at place 1; any other
      place returns nothing, which the caller cannot unpack. */
  function Head(place: int): Option<string>
  {
    if place == 0 then Some("├") else if place == 1 then Some("└") else None
  }

  /** The description under the last item: every bar turned into a space. */
  function LastDescription(d: string): string
  {
    ReplaceAll(d, Bar, NoBar)
  }

  /** Under the last item the description is unchanged exactly when it
      holds no bar. */
  lemma LastDescriptionUnchanged(d: string)
    ensures LastDescription(d) == d <==> !Contains(d, Bar)
  {
    ReplaceAllShrinks(d, Bar, NoBar);
    if !Contains(d, Bar) {
      ReplaceAllAbsent(d, Bar, NoBar);
    }
  }

  /** `head + 'a'*3*depth + indent + path + ' / ' + description`, with the
      type in place of a missing description. */
  function Line(head: string, depth: nat, path: string, description: Option<string>, kind: string): string
  {
    head + Repeat('a', 3 * depth) + Indent + path + " / " + (if description.Some? then description.value else kind)
  }

  /** A line can be read back: the head and filler, the indent, the path,
      the separator and the description (or type) follow one another. */
  lemma LineParts(head: string, depth: nat, path: string, description: Option<string>, kind: string)
    ensures var r := Line(head, depth, path, description, kind);
            var a := |head| + 3 * depth + |Indent|;
            var tail := if description.Some? then description.value else kind;
            |r| == a + |path| + 3 + |tail|
            && r[..|head|] == head && r[|head|..a - |Indent|] == Repeat('a', 3 * depth)
            && r[a - |Indent|..a] == Indent && r[a..a + |path|] == path
            && r[a + |path|..a + |path| + 3] == " / " && r[a + |path| + 3..] == tail
  {
  }

  // ---------------------------------------------------------------------
  // The item
  // ---------------------------------------------------------------------

  /** An item: its path and description change; its type, depth and the
      optional `path_length` entry do not. */
  class Item {
    var path: string
    var description: Option<string>
    const kind: string
    const depth: nat
    const pathLength: Option<nat>

    constructor (path0: string, description0: Option<string>, kind0: string, depth0: nat, pathLength0: Option<nat>)
      ensures path == path0 && description == description0
      ensures kind == kind0 && depth == depth0 && pathLength == pathLength0
    {
      path, description := path0, description0;
      kind, depth, pathLength := kind0, depth0, pathLength0;
    }

    /** `_add_indent_to_new_line`: status 1 without a description; `None`
        where `item['path_length']` raises `KeyError`; otherwise status 0
        and the indented description. */
    method AddIndentToNewLine() returns (status: Option<nat>)
      modifies this
      ensures path == old(path)
      ensures old(description).None? ==> status == Some(1) && description == old(description)
      ensures old(description).Some? && pathLength.None? ==> status.None? && description == old(description)
      ensures old(description).Some? && pathLength.Some? ==>
                status == Some(0) && description == Some(Indented(old(description).value, depth, pathLength.value))
    {
      if description.None? {
        return Some(1);
      }
      if pathLength.None? {
        return None;
      }
      var blank := "\n" + Tag(DescriptionWhite) + "│" + Tag(SearchEnd) + Repeat(' ', 3 * (depth + 1) + pathLength.value + 3);
      var lines := Split(description.value, '\n');
      if |lines| >= 2 {
        var last := lines[|lines| - 1];
        if AllSpaces(last) {
          lines := lines[..|lines| - 1];
        }
      }
      description := Some(Join(lines, blank) + Tag(End));
      status := Some(0);
    }

    /** `_add_color_to_path`: the path wrapped in the colour of its type. */
    method AddColorToPath() returns (status: nat)
      modifies this
      ensures status == 0 && description == old(description)
      ensures path == ColoredPath(old(path), kind)
    {
      PathColorsFound();
      if kind == "Dir" {
        path := GetColor("dir").value + path + GetColor("end").value;
      } else if kind == "File" {
        path := GetColor("file").value + path + GetColor("end").value;
      }
      status := 0;
    }

    /** `_tag2color`: the path marked, then the description split on the
        tags in `order` and coloured segment by segment. `None` where a
        colour lookup raises `KeyError`; status 1 when there is no
        description. */
    method Tag2Color(order: seq<TagName>) returns (status: Option<nat>)
      modifies this
      ensures MarkedPath(old(path), kind).None? ==>
                status.None? && path == old(path) && description == old(description)
      ensures MarkedPath(old(path), kind).Some? ==> path == MarkedPath(old(path), kind).value
      ensures MarkedPath(old(path), kind).Some? && old(description).None? ==>
                status == Some(1) && description == old(description)
      ensures MarkedPath(old(path), kind).Some? && old(description).Some? ==>
                match ColoredDescription(old(description).value, order)
                case None => status.None? && description == old(description)
                case Some(s) => status == Some(0) && description == Some(s)
    {
      var marked := MarkPath(path, kind);
      if marked.None? {
        return None;
      }
      path := marked.value;
      if description.None? {
        return Some(1);
      }
      var colored := ColorDescription(description.value, order);
      if colored.None? {
        return None;
      }
      description := colored;
      status := Some(0);
    }

    /** `_select_indent_head`: the head for the place; under the last item
        the bars of the description become spaces. */
    method SelectIndentHead(place: int) returns (head: Option<string>)
      modifies this
      ensures head == Head(place) && path == old(path)
      ensures place == 1 && old(description).Some? ==> description == Some(LastDescription(old(description).value))
      ensures place != 1 || old(description).None? ==> description == old(description)
    {
      if place == 0 {
        return Some("├");
      }
      if place == 1 {
        if description.Some? {
          description := Some(ReplaceAll(description.value, Bar, NoBar));
        }
        return Some("└");
      }
      return None;
    }

    /** `_concat_item`: the head, the filler, the indent, the path and the
        description or the type; `None` where the head cannot be unpacked. */
    method ConcatItem(place: int) returns (output: Option<string>)
      modifies this
      ensures path == old(path)
      ensures Head(place).None? ==> output.None? && description == old(description)
      ensures Head(place).Some? ==>
                description == (if place == 1 && old(description).Some?
                                then Some(LastDescription(old(description).value)) else old(description))
                && output == Some(Line(Head(place).value, depth, path, description, kind))
    {
      var head := SelectIndentHead(place);
      if head.None? {
        return None;
      }
      var d := if description.Some? then description.value else kind;
      var indent := head.value + Repeat('a', 3 * depth) + Indent;
      output := Some(indent + path + " / " + d);
    }

    /** `run`: the indent, tag and path-colour transforms in that order,
        then the line; `None` where a step raises. */
    method Run(place: int, order: seq<TagName>) returns (output: Option<string>)
      modifies this
      ensures output == VisualLine(old(path), old(description), kind, depth, pathLength, place, order)
    {
      var s := AddIndentToNewLine();
      if s.None? {
        return None;
      }
      s := Tag2Color(order);
      if s.None? {
        return None;
      }
      var _ := AddColorToPath();
      output := ConcatItem(place);
    }
  }

  /** The path half of `_tag2color`. */
  method MarkPath(path: string, kind: string) returns (r: Option<string>)
    ensures r == MarkedPath(path, kind)
  {
    TagsAreMarkers(Search);
    TagsAreMarkers(SearchEnd);
    GetColorOfName(Search);
    var text := ReplaceAll(path, Tag(Search), GetColor("search").value);
    var typeColor := GetColor(kind);
    if typeColor.None? {
      return None;
    }
    GetColorOfName(SearchEnd);
    text := ReplaceAll(text, Tag(SearchEnd), GetColor("search_end").value + typeColor.value);
    r := Some(text);
  }

  /** The description half of `_tag2color`: the split passes over the
      tags, then the colouring loop over the segments. */
  method ColorDescription(d: string, order: seq<TagName>) returns (r: Option<string>)
    ensures r == ColoredDescription(d, order)
  {
    var pieces := SplitDescription(d, order);
    r := ColorSegments(pieces);
  }

  /** The split passes of `_tag2color`, one per tag in `order`. */
  method SplitDescription(d: string, order: seq<TagName>) returns (pieces: seq<Text.Piece>)
    ensures pieces == Text.SplitAll([Text.Piece(Tag(Description), d)], order)
  {
    pieces := [Text.Piece(Tag(Description), d)];
    for j := 0 to |order|
      invariant pieces == Text.SplitAll([Text.Piece(Tag(Description), d)], order[..j])
    {
      assert order[..j + 1][..j] == order[..j];
      TagsAreMarkers(order[j]);
      pieces := Text.SplitPass(pieces, Tag(order[j]));
    }
    assert order[..|order|] == order;
  }

  /** The colouring loop of `_tag2color` over the segments. */
  method ColorSegments(pieces: seq<Text.Piece>) returns (r: Option<string>)
    ensures r == ColoredSegments(pieces)
  {
    var out := "";
    for i := 0 to |pieces|
      invariant ColoredSegments(pieces[..i]) == Some(out)
    {
      assert pieces[..i + 1][..i] == pieces[..i];
      var c := ColorOfTag(pieces[i].tag);
      if c.None? {
        ColoredSegmentsNone(pieces, i + 1);
        return None;
      }
      out := out + c.value + Recolored(pieces[i].text, c.value);
    }
    assert pieces[..|pieces|] == pieces;
    r := Some(out);
  }

  /** Once a segment has no colour, the whole colouring fails. */
  lemma {:induction false} ColoredSegmentsNone(ps: seq<Text.Piece>, i: nat)
    requires 0 < i <= |ps| && ColoredSegments(ps[..i]).None?
    ensures ColoredSegments(ps).None?
    decreases |ps| - i
  {
    if i < |ps| {
      assert ps[..i + 1][..i] == ps[..i];
      ColoredSegmentsNone(ps, i + 1);
    } else {
      assert ps[..i] == ps;
    }
  }

  /** The description after the indent transform, `None` where it raises. */
  function IndentStep(description: Option<string>, depth: nat, pathLength: Option<nat>): Option<Option<string>>
  {
    if description.None? then Some(None)
    else if pathLength.None? then None
    else Some(Some(Indented(description.value, depth, pathLength.value)))
  }

  /** The path and description after `_tag2color`, `None` where it raises. */
  function TagStep(path: string, description: Option<string>, kind: string, order: seq<TagName>)
    : Option<(string, Option<string>)>
  {
    match MarkedPath(path, kind)
    case None => None
    case Some(p) =>
      if description.None? then Some((p, None))
      else
        match ColoredDescription(description.value, order)
        case None => None
        case Some(d) => Some((p, Some(d)))
  }

  /** The line `run` returns for an item, `None` where a step raises. */
  function VisualLine(path: string, description: Option<string>, kind: string, depth: nat,
                      pathLength: Option<nat>, place: int, order: seq<TagName>): Option<string>
  {
    match IndentStep(description, depth, pathLength)
    case None => None
    case Some(d1) =>
      match TagStep(path, d1, kind, order)
      case None => None
      case Some(pd) =>
        match Head(place)
        case None => None
        case Some(h) =>
          var d := if place == 1 && pd.1.Some? then Some(LastDescription(pd.1.value)) else pd.1;
          Some(Line(h, depth, ColoredPath(pd.0, kind), d, kind))
  }

  /** An undescribed `Dir` or `File` item with a plain path is printed as
      the head, the filler, the indent, the coloured path and its type. */
  lemma UndescribedLine(path: string, kind: string, depth: nat, pathLength: Option<nat>, place: int, order: seq<TagName>)
    requires kind == "Dir" || kind == "File"
    requires Symbol !in path && (place == 0 || place == 1)
    ensures VisualLine(path, None, kind, depth, pathLength, place, order)
            == Some(Line(if place == 0 then "├" else "└", depth, ColoredPath(path, kind), None, kind))
  {
    MarkedPathPlain(path, kind);
  }

  /** A described item raises only where `path_length` is missing, given a
      `Dir` or `File` type, a place of 0 or 1 and the table's split order. */
  lemma DescribedLineDefined(path: string, d: string, kind: string, depth: nat,
                             pathLength: Option<nat>, place: int, order: seq<TagName>)
    requires kind == "Dir" || kind == "File"
    requires IsSplitOrder(order) && (place == 0 || place == 1)
    ensures VisualLine(path, Some(d), kind, depth, pathLength, place, order).Some? <==> pathLength.Some?
  {
    MarkedPathPlain(path, kind);
    if pathLength.Some? {
      ColoredDescriptionDefined(Indented(d, depth, pathLength.value), order);
    }
  }
}
