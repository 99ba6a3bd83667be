/** `src/colors.rs`: the palette. Each of the thirteen slots is either the
    user's fragments, each behind an ESC byte, or a fixed default. */
module Colors {
  import opened Results
  import opened Strings
  import opened Config

  /** `Colors`: the resolved ANSI text of each slot. */
  datatype Colors = Colors(
    red: string, blue: string, green: string, white: string, purple: string,
    yellow: string, cyan: string, underline: string, end: string, dir: string,
    currentDir: string, file: string, description: string)
  {
    /** The field of slot `s`. */
    function Field(s: Slot): string
    {
      match s
      case Red => red
      case Blue => blue
      case Green => green
      case White => white
      case Purple => purple
      case Yellow => yellow
      case Cyan => cyan
      case Underline => underline
      case End => end
      case Dir => dir
      case CurrentDir => currentDir
      case File => file
      case Description => description
    }
  }

  /** `ESC` followed by `code`. */
  function Ansi(code: string): string
  {
    [Esc] + code
  }

  /** The built-in code of slot `s`. */
  function DefaultCode(s: Slot): (r: string)
    ensures |r| > 0 && r[0] == Esc
  {
    match s
    case Red => Ansi("[1;31m")
    case Green => Ansi("[1;32m")
    case Yellow => Ansi("[33m")
    case Blue => Ansi("[1;34m")
    case Purple => Ansi("[1;35m")
    case Cyan => Ansi("[36m")
    case White => Ansi("[37m")
    case Underline => Ansi("[4m")
    case End => Ansi("[0m")
    case Dir => Ansi("[36m") + Ansi("[4m")
    case CurrentDir => Ansi("[1;36m") + Ansi("[4m")
    case File => Ansi("[37m")
    case Description => Ansi("[33m")
  }

  /** `Colors::default_one`: the built-in code of the slot a name keys, ""
      for a name that keys no slot. */
  function DefaultOne(name: string): (r: string)
    ensures forall s :: name == SlotName(s) ==> r == DefaultCode(s)
    ensures (forall s :: name != SlotName(s)) <==> r == ""
  {
    match ParseSlot(name)
    case Some(s) =>
      assert forall t :: name == SlotName(t) ==> t == s by {
        forall t | name == SlotName(t) ensures t == s { SlotNameInjective(s, t); }
      }
      DefaultCode(s)
    case None => ""
  }

  /** The fragments of a configured slot, each behind ESC, in order. */
  function EscConcat(cs: seq<string>): (r: string)
    ensures |cs| > 0 ==> |r| > 0 && r[0] == Esc
    ensures |r| == |cs| + SumLengths(cs)
  {
    if |cs| == 0 then "" else EscConcat(cs[..|cs| - 1]) + Ansi(cs[|cs| - 1])
  }

  /** The total length of the fragments. */
  function SumLengths(cs: seq<string>): nat
  {
    if |cs| == 0 then 0 else SumLengths(cs[..|cs| - 1]) + |cs[|cs| - 1]|
  }

  /** What `from_cfg` puts in slot `s`: the configured fragments when the
      slot is set (even to an empty list), the default otherwise. */
  function SlotValue(conf: ColorConf, s: Slot): string
  {
    match conf.Field(s)
    case Some(cs) => EscConcat(cs)
    case None => DefaultCode(s)
  }

  /** The palette `from_cfg` builds, slot by slot. */
  function Palette(conf: ColorConf): (c: Colors)
    ensures forall s :: c.Field(s) == SlotValue(conf, s)
  {
    var c := Colors(SlotValue(conf, Red), SlotValue(conf, Blue), SlotValue(conf, Green),
                    SlotValue(conf, White), SlotValue(conf, Purple), SlotValue(conf, Yellow),
                    SlotValue(conf, Cyan), SlotValue(conf, Underline), SlotValue(conf, End),
                    SlotValue(conf, Dir), SlotValue(conf, CurrentDir), SlotValue(conf, File),
                    SlotValue(conf, Description));
    FieldsOfPalette(conf, c);
    c
  }

  lemma FieldsOfPalette(conf: ColorConf, c: Colors)
    requires c == Colors(SlotValue(conf, Red), SlotValue(conf, Blue), SlotValue(conf, Green),
                         SlotValue(conf, White), SlotValue(conf, Purple), SlotValue(conf, Yellow),
                         SlotValue(conf, Cyan), SlotValue(conf, Underline), SlotValue(conf, End),
                         SlotValue(conf, Dir), SlotValue(conf, CurrentDir), SlotValue(conf, File),
                         SlotValue(conf, Description))
    ensures forall s :: c.Field(s) == SlotValue(conf, s)
  {
    forall s ensures c.Field(s) == SlotValue(conf, s) {
      match s
      case Red => case Blue => case Green => case White => case Purple =>
      case Yellow => case Cyan => case Underline => case End => case Dir =>
      case CurrentDir => case File => case Description =>
    }
  }

  /** The palette `default` builds. */
  function DefaultPalette(): (c: Colors)
    ensures forall s :: c.Field(s) == DefaultCode(s)
  {
    Palette(NoColors)
  }

  /** The map after visiting `Slots[..k]`: keyed by those slots' names, each
      holding `value` of its slot. */
  ghost predicate FilledUpTo(ansi: map<string, string>, k: int, value: Slot -> string)
    requires 0 <= k <= |Slots|
  {
    ansi.Keys == (set j | 0 <= j < k :: SlotName(Slots[j]))
    && forall j :: 0 <= j < k ==> ansi[SlotName(Slots[j])] == value(Slots[j])
  }

  /** `Colors::create`: reads every slot from the map under its key. The map
      must hold every key; Rust's indexing panics otherwise. */
  function Create(ansi: map<string, string>): (c: Colors)
    requires forall s :: SlotName(s) in ansi
    ensures forall s :: c.Field(s) == ansi[SlotName(s)]
  {
    Colors(ansi[SlotName(Red)], ansi[SlotName(Blue)], ansi[SlotName(Green)],
           ansi[SlotName(White)], ansi[SlotName(Purple)], ansi[SlotName(Yellow)],
           ansi[SlotName(Cyan)], ansi[SlotName(Underline)], ansi[SlotName(End)],
           ansi[SlotName(Dir)], ansi[SlotName(CurrentDir)], ansi[SlotName(File)],
           ansi[SlotName(Description)])
  }

  /** Two palettes that agree on every slot are equal. */
  lemma SlotsDetermine(c: Colors, d: Colors)
    requires forall s :: c.Field(s) == d.Field(s)
    ensures c == d
  {
    assert c.Field(Red) == d.Field(Red) && c.Field(Blue) == d.Field(Blue);
    assert c.Field(Green) == d.Field(Green) && c.Field(White) == d.Field(White);
    assert c.Field(Purple) == d.Field(Purple) && c.Field(Yellow) == d.Field(Yellow);
    assert c.Field(Cyan) == d.Field(Cyan) && c.Field(Underline) == d.Field(Underline);
    assert c.Field(End) == d.Field(End) && c.Field(Dir) == d.Field(Dir);
    assert c.Field(CurrentDir) == d.Field(CurrentDir) && c.Field(File) == d.Field(File);
    assert c.Field(Description) == d.Field(Description);
  }

  /** A map filled over all of `Slots` holds every key. */
  lemma FilledHasEveryKey(ansi: map<string, string>, value: Slot -> string)
    requires FilledUpTo(ansi, |Slots|, value)
    ensures forall s :: SlotName(s) in ansi && ansi[SlotName(s)] == value(s)
  {
    forall s ensures SlotName(s) in ansi && ansi[SlotName(s)] == value(s) {
      assert Slots[SlotIndex(s)] == s;
    }
  }

  /** Entering slot `Slots[k]` extends a map filled over `Slots[..k]`. */
  lemma FillStep(ansi: map<string, string>, k: int, value: Slot -> string)
    requires 0 <= k < |Slots| && FilledUpTo(ansi, k, value)
    ensures FilledUpTo(ansi[SlotName(Slots[k]) := value(Slots[k])], k + 1, value)
  {
    var ansi' := ansi[SlotName(Slots[k]) := value(Slots[k])];
    forall j | 0 <= j < k ensures ansi'[SlotName(Slots[j])] == value(Slots[j]) {
      if SlotName(Slots[j]) == SlotName(Slots[k]) {
        SlotNameInjective(Slots[j], Slots[k]);
      }
    }
    assert ansi'.Keys == (set j | 0 <= j < k + 1 :: SlotName(Slots[j]));
  }

  /** `Colors::from_cfg`: one pass over the slot keys fills a map, each
      configured slot by appending its fragments one at a time. */
  method FromCfg(conf: ColorConf) returns (c: Colors)
    ensures c == Palette(conf)
  {
    var ansi: map<string, string> := map[];
    for k := 0 to |Slots|
      invariant FilledUpTo(ansi, k, s => SlotValue(conf, s))
    {
      var term := SlotName(Slots[k]);
      ParseSlotName(Slots[k]);
      var value;
      match conf.Get(term) {
        case Some(cs) =>
          var termAnsi := "";
          for i := 0 to |cs|
            invariant termAnsi == EscConcat(cs[..i])
          {
            assert cs[..i + 1][..i] == cs[..i];
            termAnsi := termAnsi + Ansi(cs[i]);
          }
          assert cs[..|cs|] == cs;
          value := termAnsi;
        case None =>
          value := DefaultOne(term);
      }
      FillStep(ansi, k, s => SlotValue(conf, s));
      ansi := ansi[term := value];
    }
    FilledHasEveryKey(ansi, s => SlotValue(conf, s));
    c := Create(ansi);
    SlotsDetermine(c, Palette(conf));
  }

  /** `Colors::default`: every slot from `default_one`. */
  method Default() returns (c: Colors)
    ensures c == DefaultPalette()
  {
    var ansi: map<string, string> := map[];
    for k := 0 to |Slots|
      invariant FilledUpTo(ansi, k, DefaultCode)
    {
      var term := SlotName(Slots[k]);
      FillStep(ansi, k, DefaultCode);
      ansi := ansi[term := DefaultOne(term)];
    }
    FilledHasEveryKey(ansi, DefaultCode);
    c := Create(ansi);
    SlotsDetermine(c, DefaultPalette());
  }

  /** `Colors::new`: the configured palette when there is a colour section,
      the defaults otherwise. */
  method New(conf: Option<ColorConf>) returns (c: Colors)
    ensures conf.None? ==> c == DefaultPalette()
    ensures conf.Some? ==> c == Palette(conf.value)
  {
    match conf {
      case Some(cc) => c := FromCfg(cc);
      case None => c := Default();
    }
  }

  /** A slot configured as an empty list is the empty text, not the
      default; a slot not configured is the default. */
  lemma EmptyListIsNotDefault(conf: ColorConf, s: Slot)
    ensures conf.Field(s) == Some([]) ==> Palette(conf).Field(s) == "" != DefaultCode(s)
    ensures conf.Field(s) == None ==> Palette(conf).Field(s) == DefaultCode(s) == DefaultPalette().Field(s)
  {
  }

  /** The default palette's codes. */
  lemma DefaultCodes()
    ensures DefaultPalette().red == [Esc] + "[1;31m"
    ensures DefaultPalette().end == [Esc] + "[0m"
    ensures DefaultPalette().dir == [Esc] + "[36m" + [Esc] + "[4m"
    ensures DefaultPalette().currentDir == [Esc] + "[1;36m" + [Esc] + "[4m"
    ensures DefaultPalette().description == [Esc] + "[33m"
    ensures DefaultPalette().file == [Esc] + "[37m"
  {
  }
}
