/** `src/config.rs`: the colour section of the configuration file, thirteen
    optional lists of ANSI fragments, and its by-name lookup. */
module Config {
  import opened Results

  /** The thirteen palette slots. */
  datatype Slot = Red | Blue | Green | White | Purple | Yellow | Cyan
                | Underline | End | Dir | CurrentDir | File | Description

  /** The slots in the order `Colors::from_cfg` visits them. */
  const Slots: seq<Slot> := [Red, Blue, Green, White, Purple, Yellow, Cyan,
                             Underline, End, Dir, CurrentDir, File, Description]

  /** The configuration key of each slot. */
  function SlotName(s: Slot): string
  {
    match s
    case Red => "red"
    case Blue => "blue"
    case Green => "green"
    case White => "white"
    case Purple => "purple"
    case Yellow => "yellow"
    case Cyan => "cyan"
    case Underline => "underline"
    case End => "end"
    case Dir => "dir"
    case CurrentDir => "current_dir"
    case File => "file"
    case Description => "description"
  }

  /** The slot a key names, if any. */
  function ParseSlot(key: string): (r: Option<Slot>)
    ensures r.Some? ==> SlotName(r.value) == key
    ensures r.None? ==> forall s :: SlotName(s) != key
  {
    if key == "red" then Some(Red)
    else if key == "blue" then Some(Blue)
    else if key == "green" then Some(Green)
    else if key == "white" then Some(White)
    else if key == "purple" then Some(Purple)
    else if key == "yellow" then Some(Yellow)
    else if key == "cyan" then Some(Cyan)
    else if key == "underline" then Some(Underline)
    else if key == "end" then Some(End)
    else if key == "dir" then Some(Dir)
    else if key == "current_dir" then Some(CurrentDir)
    else if key == "file" then Some(File)
    else if key == "description" then Some(Description)
    else None
  }

  /** Distinct slots have distinct keys, so a key names at most one slot. */
  lemma {:induction false} SlotNameInjective(s: Slot, t: Slot)
    requires SlotName(s) == SlotName(t)
    ensures s == t
  {
    assert SlotName(s)[0] == SlotName(t)[0] && |SlotName(s)| == |SlotName(t)|;
    if s.White? || s.Purple? || s.Yellow? || s.Cyan? {
      assert SlotName(s)[1] == SlotName(t)[1];
    }
  }

  /** Parsing a slot's key gives that slot back. */
  lemma ParseSlotName(s: Slot)
    ensures ParseSlot(SlotName(s)) == Some(s)
  {
    var r := ParseSlot(SlotName(s));
    SlotNameInjective(s, r.value);
  }

  /** `ColorConf`: each slot absent or a list of fragments. */
  datatype ColorConf = ColorConf(
    red: Option<seq<string>>, blue: Option<seq<string>>, green: Option<seq<string>>,
    white: Option<seq<string>>, purple: Option<seq<string>>, yellow: Option<seq<string>>,
    cyan: Option<seq<string>>, underline: Option<seq<string>>, end: Option<seq<string>>,
    dir: Option<seq<string>>, currentDir: Option<seq<string>>, file: Option<seq<string>>,
    description: Option<seq<string>>)
  {
    /** The field of slot `s`. */
    function Field(s: Slot): Option<seq<string>>
    {
      match s
      case Red => red
      case Blue => blue
      case Green => green
      case White => white
      case Purple => purple
      case Yellow => yellow
      case Cyan => cyan
      case Underline => underline
      case End => end
      case Dir => dir
      case CurrentDir => currentDir
      case File => file
      case Description => description
    }

    /** `ColorConf::get`: the field whose key is `key`, `None` for any key
        that names no slot. */
    function Get(key: string): (r: Option<seq<string>>)
      ensures forall s :: key == SlotName(s) ==> r == Field(s)
      ensures (forall s :: key != SlotName(s)) ==> r == None
    {
      match ParseSlot(key)
      case Some(s) =>
        assert forall t :: key == SlotName(t) ==> t == s by {
          forall t | key == SlotName(t) ensures t == s { SlotNameInjective(s, t); }
        }
        Field(s)
      case None => None
    }
  }

  /** The configuration file: an optional colour section. */
  datatype ConfigFile = ConfigFile(colors: Option<ColorConf>)

  /** A configuration with no slot set. */
  const NoColors: ColorConf := ColorConf(None, None, None, None, None, None, None, None, None, None, None, None, None)

  /** `read_config`: a file that cannot be read is parsed as the empty text,
      and a parse failure is `None`. `contents` is what reading the file gave
      and `parse` stands for the TOML deserialiser. */
  function ReadConfig(contents: Option<string>, parse: string -> Option<ConfigFile>): (r: Option<ConfigFile>)
    ensures contents.None? ==> r == parse("")
    ensures contents.Some? ==> r == parse(contents.value)
  {
    parse(match contents case Some(s) => s case None => "")
  }

  /** The keys `get` answers for are exactly the keys of the slots
      `from_cfg` visits: for a configuration with every slot set, `get`
      answers `Some` exactly for those keys. */
  lemma GetRecognisesExactlySlots(c: ColorConf, key: string)
    requires forall s :: c.Field(s).Some?
    ensures c.Get(key).Some? <==> exists k :: 0 <= k < |Slots| && SlotName(Slots[k]) == key
  {
    match ParseSlot(key)
    case Some(s) =>
      assert Slots[SlotIndex(s)] == s;
    case None =>
  }

  /** Where slot `s` sits in `Slots`. */
  function SlotIndex(s: Slot): (k: nat)
    ensures k < |Slots| && Slots[k] == s
  {
    match s
    case Red => 0
    case Blue => 1
    case Green => 2
    case White => 3
    case Purple => 4
    case Yellow => 5
    case Cyan => 6
    case Underline => 7
    case End => 8
    case Dir => 9
    case CurrentDir => 10
    case File => 11
    case Description => 12
  }
}
