/** `ls_improved/config.py`: the tag table of the installed package (each
    name to its `;…;` marker), the colour of each marker, the indent and
    the name lookup `get_color`. */
module ImprovedConfig {
  import opened Results
  import opened Strings

  /** The entries of `self.tag`, in the order they are written. */
  datatype TagName = Pwd | PwdCurrent | Dir | File | Description | Search | SearchEnd
                   | End | EndUser | Underline | Red | Red2 | Green | Green2 | Blue | Blue2
                   | Purple | Purple2 | White | White2 | DescriptionWhite

  /** `self.symbol`, the character that opens and closes every tag. */
  const Symbol: char := ';'

  /** The dictionary key of an entry. */
  function Name(t: TagName): string
  {
    match t
    case Pwd => "pwd"
    case PwdCurrent => "pwd_current"
    case Dir => "dir"
    case File => "file"
    case Description => "description"
    case Search => "search"
    case SearchEnd => "search_end"
    case End => "end"
    case EndUser => "end_user"
    case Underline => "underline"
    case Red => "red"
    case Red2 => "red2"
    case Green => "green"
    case Green2 => "green2"
    case Blue => "blue"
    case Blue2 => "blue2"
    case Purple => "purple"
    case Purple2 => "purple2"
    case White => "white"
    case White2 => "white2"
    case DescriptionWhite => "description_white"
  }

  /** What sits between the two symbols of an entry's tag. */
  function Short(t: TagName): string
  {
    match t
    case Pwd => "pwd"
    case PwdCurrent => "pwd_c"
    case Dir => "dir"
    case File => "file"
    case Description => "desc"
    case Search => "ss"
    case SearchEnd => "se"
    case End => "end"
    case EndUser => "e"
    case Underline => "_"
    case Red => "r"
    case Red2 => "red"
    case Green => "g"
    case Green2 => "green"
    case Blue => "b"
    case Blue2 => "blue"
    case Purple => "p"
    case Purple2 => "purple"
    case White => "w"
    case White2 => "white"
    case DescriptionWhite => "dw"
  }

  /** `self.tag[name]`: `self.symbol + short + self.symbol`. */
  function Tag(t: TagName): string
  {
    [Symbol] + Short(t) + [Symbol]
  }

  /** A `PyColor` constant: ESC and the rest of the escape sequence. */
  function Code(rest: string): string
  {
    [Esc] + rest
  }

  const RedCode: string := Code("[1;31m")
  const GreenCode: string := Code("[1;32m")
  const YellowCode: string := Code("[33m")
  const BlueCode: string := Code("[1;34m")
  const PurpleCode: string := Code("[1;35m")
  const CyanCode: string := Code("[36m")
  const WhiteCode: string := Code("[37m")
  const EndCode: string := Code("[0m")
  const UnderlineCode: string := Code("[4m")
  const ReverseCode: string := Code("[07m")
  const LightCyanCode: string := Code("[1;36m")

  /** `self.color[self.tag[name]]`, including the `end_user` entry added
      after the table: END followed by the description colour. */
  function Color(t: TagName): string
  {
    match t
    case Pwd => UnderlineCode + CyanCode
    case PwdCurrent => LightCyanCode
    case Dir => UnderlineCode + CyanCode
    case File => WhiteCode
    case Description => YellowCode
    case Search => ReverseCode
    case SearchEnd => EndCode
    case End => EndCode
    case EndUser => EndCode + YellowCode
    case Underline => UnderlineCode
    case Red | Red2 => RedCode
    case Green | Green2 => GreenCode
    case Blue | Blue2 => BlueCode
    case Purple | Purple2 => PurpleCode
    case White | White2 => WhiteCode
    case DescriptionWhite => WhiteCode
  }

  /** The entry a dictionary key names, if any. */
  function ParseName(key: string): (r: Option<TagName>)
    ensures r.Some? ==> Name(r.value) == key
    ensures r.None? ==> forall t :: Name(t) != key
  {
    if key == "pwd" then Some(Pwd)
    else if key == "pwd_current" then Some(PwdCurrent)
    else if key == "dir" then Some(Dir)
    else if key == "file" then Some(File)
    else if key == "description" then Some(Description)
    else if key == "search" then Some(Search)
    else if key == "search_end" then Some(SearchEnd)
    else if key == "end" then Some(End)
    else if key == "end_user" then Some(EndUser)
    else if key == "underline" then Some(Underline)
    else if key == "red" then Some(Red)
    else if key == "red2" then Some(Red2)
    else if key == "green" then Some(Green)
    else if key == "green2" then Some(Green2)
    else if key == "blue" then Some(Blue)
    else if key == "blue2" then Some(Blue2)
    else if key == "purple" then Some(Purple)
    else if key == "purple2" then Some(Purple2)
    else if key == "white" then Some(White)
    else if key == "white2" then Some(White2)
    else if key == "description_white" then Some(DescriptionWhite)
    else None
  }

  /** The entry whose tag is `tag`, if any: the keys of `self.color`. */
  function ParseTag(tag: string): (r: Option<TagName>)
    ensures r.Some? ==> Tag(r.value) == tag
  {
    if |tag| >= 3 && tag[0] == Symbol && tag[|tag| - 1] == Symbol then
      var s := tag[1..|tag| - 1];
      assert tag == [Symbol] + s + [Symbol];
      if s == "pwd" then Some(Pwd)
      else if s == "pwd_c" then Some(PwdCurrent)
      else if s == "dir" then Some(Dir)
      else if s == "file" then Some(File)
      else if s == "desc" then Some(Description)
      else if s == "ss" then Some(Search)
      else if s == "se" then Some(SearchEnd)
      else if s == "end" then Some(End)
      else if s == "e" then Some(EndUser)
      else if s == "_" then Some(Underline)
      else if s == "r" then Some(Red)
      else if s == "red" then Some(Red2)
      else if s == "g" then Some(Green)
      else if s == "green" then Some(Green2)
      else if s == "b" then Some(Blue)
      else if s == "blue" then Some(Blue2)
      else if s == "p" then Some(Purple)
      else if s == "purple" then Some(Purple2)
      else if s == "w" then Some(White)
      else if s == "white" then Some(White2)
      else if s == "dw" then Some(DescriptionWhite)
      else None
    else None
  }

  /** `self.color[tag]`, `None` where the dictionary raises `KeyError`. */
  function ColorOfTag(tag: string): Option<string>
  {
    match ParseTag(tag)
    case Some(t) => Some(Color(t))
    case None => None
  }

  /** `get_color`: the name is lower-cased, mapped to its tag and the tag
      to its colour; an unknown name raises `KeyError`, which is `None`. */
  function GetColor(name: string): Option<string>
  {
    match ParseName(Lower(name))
    case Some(t) => ColorOfTag(Tag(t))
    case None => None
  }

  /** `self.indent`. */
  const Indent: string := EndCode + "── "

  /** Distinct entries have distinct keys. */
  lemma {:induction false} NameInjective(s: TagName, t: TagName)
    requires Name(s) == Name(t)
    ensures s == t
  {
    var a, b := Name(s), Name(t);
    assert |a| == |b| && a[0] == b[0];
    if |a| > 3 { assert a[3] == b[3]; }
    if |a| > 4 { assert a[4] == b[4]; }
    if |a| > 5 { assert a[5] == b[5]; }
    if |a| > 6 { assert a[|a| - 1] == b[|b| - 1]; }
  }

  /** Distinct entries have distinct tags, so the tag set has one value per
      entry. */
  lemma {:induction false} TagInjective(s: TagName, t: TagName)
    requires Tag(s) == Tag(t)
    ensures s == t
  {
    var a, b := Short(s), Short(t);
    assert Tag(s)[1..|Tag(s)| - 1] == a;
    assert a == b;
    assert |a| == |b| && a[0] == b[0];
    if |a| > 1 { assert a[1] == b[1]; }
    if |a| > 3 { assert a[|a| - 1] == b[|b| - 1]; }
  }

  /** The key of an entry parses back to it, and its tag to it as well. */
  lemma ParseRoundTrip(t: TagName)
    ensures ParseName(Name(t)) == Some(t)
    ensures ParseTag(Tag(t)) == Some(t)
  {
    NameRoundTrip(t);
    TagRoundTrip(t);
  }

  lemma NameRoundTrip(t: TagName)
    ensures ParseName(Name(t)) == Some(t)
  {
    var r := ParseName(Name(t));
    NameInjective(t, r.value);
  }

  lemma TagRoundTrip(t: TagName)
    ensures ParseTag(Tag(t)) == Some(t)
  {
    var s := ParseTag(Tag(t));
    assert Tag(t)[1..|Tag(t)| - 1] == Short(t);
    TagInjective(t, s.value);
  }

  /** Every tag is a short name wrapped in the symbol, with no symbol
      inside. */
  lemma TagsAreMarkers(t: TagName)
    ensures |Tag(t)| >= 3 && Tag(t)[0] == ';' && Tag(t)[|Tag(t)| - 1] == ';'
    ensures forall i :: 0 < i < |Tag(t)| - 1 ==> Tag(t)[i] != ';'
  {
    assert forall i :: 0 < i < |Tag(t)| - 1 ==> Tag(t)[i] == Short(t)[i - 1];
  }

  /** Every entry's tag has a colour, and `get_color` of its key finds it. */
  lemma GetColorOfName(t: TagName)
    ensures GetColor(Name(t)) == Some(Color(t))
  {
    NameIsLower(t);
    ParseRoundTrip(t);
  }

  lemma NameIsLower(t: TagName)
    ensures Lower(Name(t)) == Name(t)
  {
    LowerOfLowercase(Name(t));
  }

  /** `get_color` ignores ASCII case. */
  lemma GetColorCaseInsensitive(name: string)
    ensures GetColor(name) == GetColor(Lower(name))
  {
    LowerIdempotent(name);
  }

  /** A name outside the table is a `KeyError`, and only such a name. */
  lemma GetColorUnknown(name: string)
    ensures GetColor(name).None? <==> forall t :: Name(t) != Lower(name)
  {
    var n := Lower(name);
    if ParseName(n).Some? {
      ParseRoundTrip(ParseName(n).value);
    }
  }

  /** `RED` is found as `red`. */
  lemma GetColorUpperCase()
    ensures GetColor("RED") == Some(RedCode)
  {
    assert Lower("RED") == "red" by {
      assert Lower("RED") == [LowerChar('R'), LowerChar('E'), LowerChar('D')];
    }
    GetColorOfName(Red);
  }

  /** The `end_user` colour is END followed by the description colour, and
      the indent is the `end` colour followed by the branch. */
  lemma DerivedColors()
    ensures GetColor("description") == Some(YellowCode)
    ensures GetColor("end_user") == Some(EndCode + YellowCode)
    ensures GetColor("end") == Some(EndCode) && Indent == EndCode + "── "
  {
    GetColorOfName(EndUser);
    GetColorOfName(Description);
    GetColorOfName(End);
  }

  lemma LowerIdempotent(s: string)
    ensures Lower(Lower(s)) == Lower(s)
  {
  }

  lemma LowerOfLowercase(s: string)
    requires forall i :: 0 <= i < |s| ==> !('A' <= s[i] <= 'Z')
    ensures Lower(s) == s
  {
  }

  /** The tag values `_from_tag_text` and `_tag2color` split on: every tag
      but those of `search`, `search_end` and `description_white`. */
  predicate Splittable(t: TagName)
  {
    t != Search && t != SearchEnd && t != DescriptionWhite
  }

  /** An iteration order of `set(config.tag.values()) - {';ss;', ';se;',
      ';dw;'}`: each splittable entry exactly once, in some order. */
  predicate IsSplitOrder(order: seq<TagName>)
  {
    (forall t :: t in order <==> Splittable(t))
    && forall i, j :: 0 <= i < j < |order| ==> order[i] != order[j]
  }
}
