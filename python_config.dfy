/** `ls-improved-python/config.py`, the companion copy of the configuration:
    its own tag table (with the newline tags and a single `yellow` tag), the
    colour of each tag, `get_color`, and `get_color_from_tag`, which turns a
    tag spelling out an escape sequence into that sequence. */
module PythonConfig {
  import opened Results
  import opened Strings

  /** The entries of `self.tag`, in the order they are written. */
  datatype TagName = Pwd | PwdCurrent | Dir | File | Description | Search | SearchEnd
                   | End | Newline | NewlineEnd | EndUser | Underline | Red | Yellow
                   | Green | Blue | Purple | White | DescriptionWhite

  /** The dictionary key of an entry. */
  function Name(t: TagName): string
  {
    match t
    case Pwd => "pwd"
    case PwdCurrent => "pwd_current"
    case Dir => "dir"
    case File => "file"
    case Description => "description"
    case Search => "search"
    case SearchEnd => "search_end"
    case End => "end"
    case Newline => "newline"
    case NewlineEnd => "newlineend"
    case EndUser => "end_user"
    case Underline => "underline"
    case Red => "red"
    case Yellow => "yellow"
    case Green => "green"
    case Blue => "blue"
    case Purple => "purple"
    case White => "white"
    case DescriptionWhite => "description_white"
  }

  /** `self.tag[name]`. */
  function Tag(t: TagName): string
  {
    match t
    case Pwd => ";pwd;"
    case PwdCurrent => ";pwd_c;"
    case Dir => ";dir;"
    case File => ";file;"
    case Description => ";desc;"
    case Search => ";ss;"
    case SearchEnd => ";se;"
    case End => ";end;"
    case Newline => ";nl;"
    case NewlineEnd => ";nle;"
    case EndUser => ";e;"
    case Underline => ";_;"
    case Red => ";r;"
    case Yellow => ";y;"
    case Green => ";g;"
    case Blue => ";b;"
    case Purple => ";p;"
    case White => ";w;"
    case DescriptionWhite => ";dw;"
  }

  /** A `PyColor` constant: ESC and the rest of the escape sequence. */
  function Code(rest: string): string
  {
    [Esc] + rest
  }

  const RedCode: string := Code("[1;31m")
  const GreenCode: string := Code("[1;32m")
  const YellowCode: string := Code("[33m")
  const BlueCode: string := Code("[1;34m")
  const PurpleCode: string := Code("[1;35m")
  const CyanCode: string := Code("[36m")
  const WhiteCode: string := Code("[37m")
  const EndCode: string := Code("[0m")
  const UnderlineCode: string := Code("[4m")
  const ReverseCode: string := Code("[07m")
  const LightCyanCode: string := Code("[1;36m")

  /** `self.color[self.tag[name]]`, including the `end_user` entry added
      after the table: END followed by the description colour. */
  function Color(t: TagName): string
  {
    match t
    case Pwd => UnderlineCode + CyanCode
    case PwdCurrent => LightCyanCode
    case Dir => UnderlineCode + CyanCode
    case File => WhiteCode
    case Description => YellowCode
    case Search => ReverseCode
    case SearchEnd => EndCode
    case End | Newline | NewlineEnd => EndCode
    case EndUser => EndCode + YellowCode
    case Underline => UnderlineCode
    case Red => RedCode
    case Yellow => YellowCode
    case Green => GreenCode
    case Blue => BlueCode
    case Purple => PurpleCode
    case White => WhiteCode
    case DescriptionWhite => WhiteCode
  }

  /** The entry a dictionary key names, if any. */
  function ParseName(key: string): (r: Option<TagName>)
    ensures r.Some? ==> Name(r.value) == key
    ensures r.None? ==> forall t :: Name(t) != key
  {
    if key == "pwd" then Some(Pwd)
    else if key == "pwd_current" then Some(PwdCurrent)
    else if key == "dir" then Some(Dir)
    else if key == "file" then Some(File)
    else if key == "description" then Some(Description)
    else if key == "search" then Some(Search)
    else if key == "search_end" then Some(SearchEnd)
    else if key == "end" then Some(End)
    else if key == "newline" then Some(Newline)
    else if key == "newlineend" then Some(NewlineEnd)
    else if key == "end_user" then Some(EndUser)
    else if key == "underline" then Some(Underline)
    else if key == "red" then Some(Red)
    else if key == "yellow" then Some(Yellow)
    else if key == "green" then Some(Green)
    else if key == "blue" then Some(Blue)
    else if key == "purple" then Some(Purple)
    else if key == "white" then Some(White)
    else if key == "description_white" then Some(DescriptionWhite)
    else None
  }

  /** The entry whose tag is `tag`, if any: the keys of `self.color`. */
  function ParseTag(tag: string): (r: Option<TagName>)
    ensures r.Some? ==> Tag(r.value) == tag
    ensures r.None? ==> forall t :: Tag(t) != tag
  {
    if tag == ";pwd;" then Some(Pwd)
    else if tag == ";pwd_c;" then Some(PwdCurrent)
    else if tag == ";dir;" then Some(Dir)
    else if tag == ";file;" then Some(File)
    else if tag == ";desc;" then Some(Description)
    else if tag == ";ss;" then Some(Search)
    else if tag == ";se;" then Some(SearchEnd)
    else if tag == ";end;" then Some(End)
    else if tag == ";nl;" then Some(Newline)
    else if tag == ";nle;" then Some(NewlineEnd)
    else if tag == ";e;" then Some(EndUser)
    else if tag == ";_;" then Some(Underline)
    else if tag == ";r;" then Some(Red)
    else if tag == ";y;" then Some(Yellow)
    else if tag == ";g;" then Some(Green)
    else if tag == ";b;" then Some(Blue)
    else if tag == ";p;" then Some(Purple)
    else if tag == ";w;" then Some(White)
    else if tag == ";dw;" then Some(DescriptionWhite)
    else None
  }

  /** `self.color[tag]`, `None` where the dictionary raises `KeyError`. */
  function ColorOfTag(tag: string): Option<string>
  {
    match ParseTag(tag)
    case Some(t) => Some(Color(t))
    case None => None
  }

  /** `get_color`: the name is lower-cased, mapped to its tag and the tag
      to its colour; an unknown name raises `KeyError`, which is `None`. */
  function GetColor(name: string): Option<string>
  {
    match ParseName(Lower(name))
    case Some(t) => ColorOfTag(Tag(t))
    case None => None
  }

  /** The four characters backslash, `0`, `3`, `3`: an escape written out. */
  const EscapeText: string := "\\033"

  /** `get_color_from_tag`: a tag that spells out an escape sequence is
      returned with each spelled-out ESC turned into the real one, without
      a table lookup; any other tag is looked up, `None` for `KeyError`. */
  function GetColorFromTag(tag: string): Option<string>
  {
    if Contains(tag, EscapeText) then Some(ReplaceAll(tag, EscapeText, [Esc]))
    else ColorOfTag(tag)
  }

  /** `self.indent`. */
  const Indent: string := EndCode + "── "

  /** Distinct entries have distinct keys. */
  lemma {:induction false} NameInjective(s: TagName, t: TagName)
    requires Name(s) == Name(t)
    ensures s == t
  {
    var a, b := Name(s), Name(t);
    assert |a| == |b| && a[0] == b[0];
    if |a| > 3 { assert a[3] == b[3]; }
    if |a| > 4 { assert a[4] == b[4]; }
    if |a| > 6 { assert a[|a| - 1] == b[|b| - 1]; }
  }

  /** The key of an entry parses back to it, and its tag to it as well. */
  lemma ParseRoundTrip(t: TagName)
    ensures ParseName(Name(t)) == Some(t)
    ensures ParseTag(Tag(t)) == Some(t)
  {
    var r := ParseName(Name(t));
    NameInjective(t, r.value);
  }

  lemma NameIsLower(t: TagName)
    ensures Lower(Name(t)) == Name(t)
  {
    LowerOfLowercase(Name(t));
  }

  lemma LowerOfLowercase(s: string)
    requires forall i :: 0 <= i < |s| ==> !('A' <= s[i] <= 'Z')
    ensures Lower(s) == s
  {
  }

  /** Every entry's tag has a colour, and `get_color` of its key finds it;
      the lookup ignores ASCII case. */
  lemma GetColorOfName(t: TagName, name: string)
    ensures GetColor(Name(t)) == Some(Color(t))
    ensures Lower(name) == Name(t) ==> GetColor(name) == Some(Color(t))
  {
    NameIsLower(t);
    ParseRoundTrip(t);
  }

  /** A name outside the table is a `KeyError`, and only such a name. */
  lemma GetColorUnknown(name: string)
    ensures GetColor(name).None? <==> forall t :: Name(t) != Lower(name)
  {
    var n := Lower(name);
    if ParseName(n).Some? {
      ParseRoundTrip(ParseName(n).value);
    }
  }

  /** No tag of the table spells out an escape, so `get_color_from_tag`
      of a table tag is its colour. */
  lemma GetColorFromTableTag(t: TagName)
    ensures GetColorFromTag(Tag(t)) == Some(Color(t))
  {
    ParseRoundTrip(t);
    assert '\\' !in Tag(t);
    ContainsNeedsFirstChar(Tag(t), EscapeText);
  }

  /** A tag that spells out an escape comes back with no spelled-out
      escape left; a tag that does not and is not in the table is a
      `KeyError`. */
  lemma GetColorFromTagEscapes(tag: string)
    ensures Contains(tag, EscapeText) ==>
              GetColorFromTag(tag).Some? && !Contains(GetColorFromTag(tag).value, EscapeText)
    ensures !Contains(tag, EscapeText) ==> (GetColorFromTag(tag).None? <==> forall t :: Tag(t) != tag)
  {
    if Contains(tag, EscapeText) {
      ReplaceAllRemovesPattern(tag, EscapeText, [Esc]);
    }
  }

  /** The `end_user` colour is END followed by the description colour, and
      the indent is the `end` colour followed by the branch. */
  lemma DerivedColors()
    ensures GetColor("description") == Some(YellowCode)
    ensures GetColor("end_user") == Some(EndCode + YellowCode)
    ensures GetColor("end") == Some(EndCode) && Indent == EndCode + "── "
  {
    GetColorOfName(EndUser, "");
    GetColorOfName(Description, "");
    GetColorOfName(End, "");
  }
}
