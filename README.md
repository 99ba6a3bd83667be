# ls-Improved, modelled in Dafny

`lsi` lists a directory as a tree and shows a short description next to
each entry. A directory's description comes from a `.description.lsi`
sidecar file inside it. A file's description comes from
`.file_description_lsi/.<name>.lsi` next to the file. Descriptions can
carry inline colour markers such as `;r;` and `;e;`, and a literal `\033`
that stands for the escape byte. This project models the core of the Rust
crate and of the two Python packages that ship beside it.

The Rust crate:

- **Entries and their order** (`path.dfy`, module `Path`). `LsiPath` is a
  class whose `description` field is updated in place. Entries are ordered
  by a string key. The key starts with the kind digit (`0_` for a
  directory, `1_` for a file). In sort mode `"d"`, a described or
  undescribed tag and the plain description follow it. The name comes last.
  The in-place sort of an array of entries is an insertion sort. It is
  proved to be a permutation and to be sorted.
- **The decoration pipeline** (`decoration.dfy`). It has three passes over
  the description:
  1. nine marker substitutions;
  2. `\033` unescaping;
  3. multi-line formatting, built up in a loop as the source does.
- **Palettes** (`colors.dfy`, `config.dfy`). There are 13 colour slots.
  Each slot takes the user's fragments, each prefixed with ESC, or else a
  fixed default.
- **The listing** (`fs.dfy`, `view.dfy`, `lsi.dfy`). These cover:
  - the entry filter;
  - the sidecar paths;
  - the sidecar store (class `Fs.Disk`, a map from path to content);
  - the breadcrumb and entry lines, returned as strings instead of printed;
  - the "load every description, ignore failures" loop;
  - the error mapping of `run`.

The Python packages:

- **Sidecar parsing**. `item_loader.dfy` models the `.file_description.lsi`
  parser of `ls_improved/lsi_itemloader.py` and its directory
  normalisation.
- **The `Text` buffer**. `text.dfy` models the span-styled buffer of
  `ls_improved/lsi_text.py` as class `Text.Text`, with fields `text` and
  `style`.
- **Item transforms**. `visual.dfy` models the transforms of
  `ls_improved/lsi_visual.py` as methods of class `Visual.Item`.
- **Search and item limit**. `content.dfy` models the search filter and item
  limit of `ls_improved/lsi_content.py`. `content_text.dfy` models the
  case-insensitive search of `ls_improved-python/lsi_content.py`, which
  marks matches with `Text.insert_style`.
- **Tag and colour tables**. `improved_config.dfy` and `python_config.dfy`
  model the tables of the two `config.py` files.

The operating system appears only as parameters:

- `isDir`/`isFile` oracles;
- a `canon` function standing for `canonicalize`;
- the directory listing as an optional sequence;
- a `width` function standing for `UnicodeWidthStr::width`;
- a `parse` function standing for the TOML reader;
- the user's reply to the item-count prompt.

The Python `set` iteration order, which decides the order in which tags
are split off, is a parameter `order` constrained by `IsSplitOrder`.

Two behaviours of the code differ from the tool's documented intent. The
model follows the code in both:

- The nine marker substitutions run one after another. A configured colour
  that itself contains a later marker (a red of `;g;`) is rewritten by the
  later pass. `Decoration.SubstitutionIsSequential` shows this.
- For a file directly under `/`, the reader asks for
  `//.file_description_lsi/.<name>.lsi` and the writer creates
  `/.file_description_lsi/.<name>.lsi`. These are different strings that
  name the same file. The sidecar store keys files by the path with
  repeated slashes collapsed, so the two agree
  (`Fs.SidecarNamesAgree`).

`insert_style` can only cut a span strictly after its start. So in the
second Python package, a search word found at the very start of a path or
description makes `insert_style` raise even after the correction in
"Findings". `ContentText.HighlightedIff` states this as the exact
condition.

## Model

| member | source | states |
|---|---|---|
| `Path.IsHidden` | src/path.rs:67-72 | hidden exactly when the final component exists, is valid UTF-8 and starts with `.`; a path without a file name is not hidden |
| `Path.PlainOf` | src/path.rs:122-134 | the plain description is absent exactly when the description is; a description with no `;` and no backslash comes back unchanged |
| `Path.StripMarkersWithoutSemicolon` | src/path.rs:124-127 | the `;.;` removal leaves a text with no `;` unchanged |
| `Path.Cmp` | src/path.rs:164-182 | `cmp` answers Equal exactly when `eq` holds, since both compare the same pair of keys |
| `Path.LsiPath.constructor` | src/path.rs:43-56 | the kind is Dir exactly when the path is a directory, otherwise File; the description starts absent; path and sort mode are kept |
| `Path.LsiPath.SetDescription` | src/path.rs:104-115 | afterwards `get_description` is the new text; path, kind and sort mode cannot change |
| `Path.LsiPath.IsEmpty` | src/path.rs:150-161 | empty exactly when the display width of the file name is 0 |
| `Path.KeyStartsWithKind` | src/path.rs:194-245 | every ordering key, in either mode, begins with the kind digit |
| `Path.DirsBeforeFiles` | src/path.rs:194-245 | in every sort mode a directory orders strictly before a file, whichever side each is on |
| `Path.NameModeOrder` | src/path.rs:194-223 | outside mode `"d"`, entries of one kind compare by their names |
| `Path.DescribedFirst` | src/path.rs:234-245 | in mode `"d"`, a described entry orders before an undescribed one of the same kind |
| `Path.DescriptionModeOrder` | src/path.rs:234-239 | in mode `"d"`, two described entries of one kind compare by plain description followed by name |
| `Path.CmpIsKeyOrder` | src/path.rs:164-168 | `cmp` is not Greater exactly when the left key is lexicographically at most the right key, in the left operand's mode |
| `Path.CmpAntisymmetric` | src/path.rs:164-169 | between entries of one mode, Less one way holds exactly when Greater holds the other way, and Equal is symmetric |
| `Path.CmpTotal` | src/path.rs:164-169 | between entries of one mode, at least one direction is not Greater |
| `Path.CmpTransitive` | src/path.rs:164-169 | between entries of one mode, not-Greater is transitive |
| `Path.MixedModesBreakAntisymmetry` | src/path.rs:194-206 | the mode is read from the left operand only, so a `"d"` entry and a `"p"` entry can each compare Less than the other |
| `Path.SortPaths` | src/fs.rs:47 | `sort` on entries of one mode leaves a permutation of the array, in non-decreasing order |
| `Decoration.ReplaceLsiColorCode` | src/decoration.rs:47-91 | an absent description gives DescriptionNotFound and is left absent; otherwise the nine markers are substituted in their order and the result is Ok |
| `Decoration.ReplaceAnsiColorCode` | src/decoration.rs:102-114 | an absent description gives DescriptionNotFound; otherwise every literal `\033` becomes ESC and the result is Ok |
| `Decoration.FormatMultiline` | src/decoration.rs:143-183 | an absent description gives DescriptionNotFound; otherwise the description becomes the first line coloured, followed by the capped number of continuation lines, padded to the width taken before the rewrite |
| `Decoration.Run` | src/decoration.rs:25-35 | always Ok; an absent description stays absent, a present one becomes the three passes applied in order |
| `Decoration.LineCount` | src/decoration.rs:153-162 | the number of lines shown is `min(n, lines)` for `Some(n)` and all lines otherwise |
| `Decoration.UnescapeIdempotent` | src/decoration.rs:105-108 | no `\033` survives the unescape pass, so applying it twice is the same as once |
| `Decoration.NoMarkersUnchanged` | src/decoration.rs:50-85 | a description without `;` passes through the marker substitutions unchanged |
| `Decoration.EndMarkerRestoresDescription` | src/decoration.rs:82-85 | `;e;` becomes the end code followed by the description colour |
| `Decoration.SubstitutionIsSequential` | src/decoration.rs:50-57 | a red colour of `;g;` turns `;r;` into the green colour, because the passes run one after another |
| `Decoration.ContinuationNewlines` | src/decoration.rs:169-175 | each continuation line adds exactly one newline |
| `Decoration.FormattedNewlines` | src/decoration.rs:166-177 | formatting `k` lines gives exactly `k - 1` newlines, and none for one line or `Some(0)` |
| `Decoration.MultilineLineCount` | src/decoration.rs:152-177 | the formatted description has one newline fewer than the capped line count |
| `Decoration.LaterLinesIgnored` | src/decoration.rs:168-176 | lines past the cap do not affect the result |
| `Decoration.FewLinesIsFirstLine` | src/decoration.rs:126-128 | with a cap of at most one line, the result is the description colour, the first line and the end code |
| `Decoration.PlainDescriptionKept` | src/decoration.rs:25-35 | a one-line description without markers or backslashes is only wrapped in the description colour and the end code |
| `Config.ParseSlot` | src/config.rs:84-98 | a key maps to the slot of that name, and to none exactly when no slot has that name |
| `Config.SlotNameInjective` | src/config.rs:84-97 | the 13 slot names are distinct |
| `Config.ParseSlotName` | src/config.rs:84-97 | every slot name maps back to its slot |
| `Config.ColorConf.Get` | src/config.rs:83-99 | each of the 13 slot names gives its own field, and every other key gives None |
| `Config.GetRecognisesExactlySlots` | src/config.rs:84-97 | the keys `get` recognises are exactly the names of the `terms` list of `from_cfg` |
| `Config.ReadConfig` | src/config.rs:64-71 | an unreadable file is parsed as the empty text; the result is whatever the parser gives, None on failure |
| `Config.SlotIndex` | src/colors.rs:64-78 | every slot occurs in the `terms` list |
| `Colors.DefaultOne` | src/colors.rs:134-151 | each slot name gives its fixed default code, and the result is empty exactly when the name is unknown |
| `Colors.DefaultCode` | src/colors.rs:136-148 | every default code starts with ESC |
| `Colors.DefaultCodes` | src/colors.rs:134-151 | the default red, end, dir, current-dir, description and file codes are the listed escape sequences |
| `Colors.EscConcat` | src/colors.rs:83-86 | the concatenation of ESC-prefixed fragments is one ESC per fragment plus the fragments' lengths, and starts with ESC when there is one |
| `Colors.Palette` | src/colors.rs:80-92 | every slot of the configured palette is the ESC-prefixed concatenation of its fragments, or its default when unset |
| `Colors.DefaultPalette` | src/colors.rs:102-123 | every slot of the default palette is its default code |
| `Colors.Create` | src/colors.rs:162-178 | each field is the map entry of the same name |
| `Colors.FilledHasEveryKey` | src/colors.rs:79-94 | after the filling loop every slot name is in the map with its value, so `create` never misses a key |
| `Colors.FromCfg` | src/colors.rs:63-95 | the nested loops build the configured palette |
| `Colors.Default` | src/colors.rs:102-123 | the loop builds the default palette |
| `Colors.New` | src/colors.rs:47-52 | no configuration gives the default palette, a configuration gives its palette |
| `Colors.EmptyListIsNotDefault` | src/colors.rs:81-91 | a slot set to an empty list is the empty string, not the default; an unset slot is the default |
| `Fs.FilterNarrows` | src/fs.rs:62-78 | with no kind filter an entry passes exactly when it is not hidden or hidden entries are shown; a kind filter also demands a directory or a regular file |
| `Fs.KeptMembers` | src/fs.rs:40-46 | a path is kept exactly when it is listed and passes the filter |
| `Fs.PushIfKept` | src/fs.rs:41-45 | one turn of the loop appends a fresh entry for the path exactly when it passes the filter |
| `Fs.BuildEntries` | src/fs.rs:39-46 | the loop yields fresh, distinct entries, one per kept path, in listing order, each built with the sort mode |
| `Fs.SortedArray` | src/fs.rs:47 | the sorted vector is a permutation of the built one and is in order |
| `Fs.GetPathes` | src/fs.rs:29-49 | an unreadable directory gives PathNotFound; otherwise the result holds fresh entries for exactly the kept paths, each counted once, in sorted order |
| `Fs.SidecarNamesAgree` | src/fs.rs:115-158 | the reader's and the writer's file sidecar names are the same string under a non-root parent, and the same path once slashes are collapsed under the root |
| `Fs.SidecarUnderRoot` | src/fs.rs:116-120 | under the root the reader's name has one more leading slash than the writer's |
| `Fs.SidecarUnderChild` | src/fs.rs:151-158 | under a non-root parent the two names are equal |
| `Fs.ExpandNewlines` | src/fs.rs:140-143 | no two-character `\n` is left after the expansion |
| `Fs.Disk.ReadTrimmed` | src/fs.rs:96-99 | a read succeeds exactly when the file exists and yields its trimmed content |
| `Fs.Disk.ReadDirDescription` | src/fs.rs:93-100 | a path that cannot be canonicalised fails; otherwise the directory sidecar is read and trimmed |
| `Fs.Disk.ReadFileDescription` | src/fs.rs:115-127 | a path that cannot be canonicalised fails, the root has no file name, and otherwise the file sidecar under the parent is read and trimmed |
| `Fs.Disk.WriteDescription` | src/fs.rs:139-170 | writes the expanded content to the sidecar for the entry's kind, creating the sidecar directory for a file, and returns the `Success: Write description to` line naming that sidecar; a path that cannot be canonicalised, or the root as a file, writes nothing; reading back gives the trimmed expanded content |
| `Lsi.GetAndSetDescription` | src/lsi.rs:81-95 | a directory reads its directory sidecar and a file its file sidecar; success sets the description, failure gives DescriptionNotFound and leaves it untouched |
| `Lsi.GetAndSetDescriptions` | src/lsi.rs:106-111 | every entry is loaded, failures are ignored, and the result is always Ok |
| `Lsi.PaletteChoice` | src/lsi.rs:47-55 | without a config path the palette is the default; with one that parses with colours it is the configured palette |
| `Lsi.ReadColors` | src/lsi.rs:47-55 | the palette is the one `PaletteChoice` describes |
| `Lsi.LoadAndDisplay` | src/lsi.rs:57-65 | a display failure maps to FailedDisplay; otherwise one line per entry follows the breadcrumb |
| `Lsi.Run` | src/lsi.rs:34-66 | a listing failure gives PathNotFound before anything else; a failing breadcrumb gives FailedDisplay; otherwise the output is the breadcrumb and one line per kept entry |
| `View.BreadcrumbShowsPath` | src/view.rs:59-86 | without colours the breadcrumb is the absolute path followed by `/`, with the root shown as `/` alone and no doubled separator |
| `View.PlainEntryLine` | src/view.rs:111-161 | the line of an entry with a plain description is the branch, the name, a tab, `/ ` and the description |
| `View.DisplayALine` | src/view.rs:104-164 | the entry is decorated, then its line is the branch, the coloured name and the description, or `Dir`/`File` when there is none |
| `View.DisplayEntries` | src/view.rs:35-41 | one line per entry in order; only the final entry is the last one; each entry is decorated before its line is built |
| `View.SortListing` | src/view.rs:34 | the in-place sort is a permutation of the entries and leaves them in order |
| `View.ShowSorted` | src/view.rs:34-41 | the entries are sorted, then decorated and shown in sorted order |
| `View.Display` | src/view.rs:27-43 | a failing breadcrumb returns nothing and changes nothing; otherwise the breadcrumb comes first, then one line per sorted, decorated entry |
| `ItemLoader.InterpretFileDescription` | ls_improved/lsi_itemloader.py:130-168 | empty input gives status 1 and no entries; a single line gives status 2; otherwise status 0 and the dictionary the line loop builds |
| `ItemLoader.StateAfterIsBody` | ls_improved/lsi_itemloader.py:156-166 | the dictionary holds exactly the keys that have body lines, each mapped to those lines joined with newlines, across repeated headers |
| `ItemLoader.AppendAgrees` | ls_improved/lsi_itemloader.py:163-166 | a body line is stored as is when it is the first for its key and appended after a newline otherwise |
| `ItemLoader.KeepAgrees` | ls_improved/lsi_itemloader.py:159-162 | a header line changes no stored value, and neither does a body line for another key |
| `ItemLoader.BodyHasNoHeader` | ls_improved/lsi_itemloader.py:159-162 | header lines are never stored |
| `ItemLoader.NoHeaderAllUnderRoot` | ls_improved/lsi_itemloader.py:156-166 | lines before any header are stored under the key `\/` |
| `ItemLoader.NormaliseDir` | ls_improved/lsi_itemloader.py:79 | the empty path raises; otherwise a `/` is appended exactly when it is missing |
| `ItemLoader.NormaliseDirIdempotent` | ls_improved/lsi_itemloader.py:118 | normalising leaves a path ending in `/` alone and is idempotent |
| `ItemLoader.DirDescriptionPath` | ls_improved/lsi_itemloader.py:79-80 | the directory sidecar is the normalised path followed by `.description.lsi` |
| `ImprovedConfig.ParseName` | ls_improved/config.py:41-63 | a key names the tag whose name it is, and none exactly when no tag has that name |
| `ImprovedConfig.ParseTag` | ls_improved/config.py:41-63 | a recognised tag string is the tag of the entry found |
| `ImprovedConfig.NameInjective` | ls_improved/config.py:41-63 | the 21 names are distinct |
| `ImprovedConfig.TagInjective` | ls_improved/config.py:41-63 | the 21 tag strings are distinct |
| `ImprovedConfig.ParseRoundTrip` | ls_improved/config.py:41-63 | every name and every tag maps back to its entry |
| `ImprovedConfig.TagsAreMarkers` | ls_improved/config.py:41-62 | every tag is `;`, a non-empty name without `;`, and `;` |
| `ImprovedConfig.NameIsLower` | ls_improved/config.py:41-62 | every name is already lower case |
| `ImprovedConfig.GetColorOfName` | ls_improved/config.py:90-91 | `get_color` of a name is the colour of its tag |
| `ImprovedConfig.GetColorCaseInsensitive` | ls_improved/config.py:90-91 | `get_color` ignores case |
| `ImprovedConfig.GetColorUnknown` | ls_improved/config.py:90-91 | `get_color` raises exactly when the lower-cased name is not in the table |
| `ImprovedConfig.GetColorUpperCase` | ls_improved/config.py:90-91 | `RED` gives the red colour |
| `ImprovedConfig.DerivedColors` | ls_improved/config.py:86-87 | the `end_user` colour is END followed by the description colour, and the indent is END followed by `── ` |
| `PythonConfig.ParseName` | ls_improved-python/config.py:42-62 | a key names the tag whose name it is, and none exactly when no tag has that name |
| `PythonConfig.ParseTag` | ls_improved-python/config.py:42-62 | a tag string names its entry, and none exactly when no entry has it |
| `PythonConfig.NameInjective` | ls_improved-python/config.py:42-62 | the 19 names are distinct |
| `PythonConfig.ParseRoundTrip` | ls_improved-python/config.py:42-62 | every name and every tag maps back to its entry |
| `PythonConfig.NameIsLower` | ls_improved-python/config.py:42-62 | every name is already lower case |
| `PythonConfig.GetColorOfName` | ls_improved-python/config.py:91-92 | `get_color` of any spelling of a name that lower-cases to it is the colour of its tag |
| `PythonConfig.GetColorUnknown` | ls_improved-python/config.py:91-92 | `get_color` raises exactly when the lower-cased name is not in the table |
| `PythonConfig.GetColorFromTableTag` | ls_improved-python/config.py:94-97 | a table tag gives its colour |
| `PythonConfig.GetColorFromTagEscapes` | ls_improved-python/config.py:94-97 | a tag holding `\033` is returned with each one turned into ESC and no lookup; any other tag raises exactly when it is not in the table |
| `PythonConfig.DerivedColors` | ls_improved-python/config.py:83-88 | the `end_user` colour is END followed by the description colour, and the indent is END followed by `── ` |
| `Text.Tagged` | ls_improved/lsi_text.py:25-33 | splitting a piece gives one piece per part: the first keeps the piece's tag, the others carry the split tag |
| `Text.SplitPieceText` | ls_improved/lsi_text.py:25-33 | the text of a split piece is the piece's text with every occurrence of the tag removed |
| `Text.SplitPiecesText` | ls_improved/lsi_text.py:23-36 | one pass over the pieces removes the tag from each piece's text |
| `Text.OneTagRemoved` | ls_improved/lsi_text.py:21-41 | with one tag to split on, the resulting text is the input with every occurrence of that tag removed |
| `Text.SplitPiecesFirst` | ls_improved/lsi_text.py:29-30 | the first piece keeps its tag through a pass |
| `Text.SplitPiecesTags` | ls_improved/lsi_text.py:28-32 | every piece after a pass carries an old tag or the tag split on |
| `Text.FreshPiecesTags` | ls_improved/lsi_text.py:21-36 | the first piece carries the start colour and every other piece carries one of the tags split on |
| `Text.NeverSplitOnSearchTags` | ls_improved/lsi_text.py:22 | `;ss;`, `;se;` and `;dw;` never become a piece's tag unless they are the start colour |
| `Text.SpansShowPieces` | ls_improved/lsi_text.py:37-43 | the spans are contiguous from 0, each as long as its piece and showing exactly its text |
| `Text.LayoutShape` | ls_improved/lsi_text.py:37-44 | the style has one span per piece plus a final empty `;end;` span at the end of the text |
| `Text.NoTagOnePiece` | ls_improved/lsi_text.py:21-44 | a text with none of the split tags stays one piece with the start colour |
| `Text.FirstCoveringIsFirst` | ls_improved/lsi_text.py:57-61 | the span found is the first with `start < pos <= end` |
| `Text.InsertTextKeepsTiles` | ls_improved/lsi_text.py:49-53 | shifting the spans keeps them contiguous over the longer text |
| `Text.InsertTextKeepsSpanText` | ls_improved/lsi_text.py:47-53 | a span before the insertion shows the same text; a span after it shows its old text; a span across it shows the inserted text too |
| `Text.InsertStyleKeepsCovers` | ls_improved/lsi_text.py:55-62 | on a style covering the text, `insert_style` finds a span exactly when `0 < pos <= len`, and the new style still covers the text |
| `Text.InsertStyleSplitsSpan` | ls_improved/lsi_text.py:57-62 | the found span is cut to end at `pos` and a span with the new tag from `pos` to its old end is appended; nothing else changes |
| `Text.SortByStart` | ls_improved/lsi_text.py:66 | the stable sort by start position is a permutation of the style |
| `Text.SortByStartSorted` | ls_improved/lsi_text.py:66 | the sorted style is in order of start position |
| `Text.SortByStartOfSorted` | ls_improved/lsi_text.py:66 | sorting a style already in order changes nothing |
| `Text.LayoutSorted` | ls_improved/lsi_text.py:44 | a freshly built style is already in order of start position |
| `Text.RenderFresh` | ls_improved/lsi_text.py:65-72 | rendering a fresh buffer gives each piece's colour followed by its text, then the end colour |
| `Text.PaintedEndSpan` | ls_improved/lsi_text.py:68-72 | the final empty `;end;` span adds the end colour and no text |
| `Text.Text.constructor` | ls_improved/lsi_text.py:5-6 | the buffer holds the tag-stripped text and its fresh style, which covers the text |
| `Text.Text.InsertText` | ls_improved/lsi_text.py:47-53 | the text gets the insertion, using Python slice semantics, and the spans are shifted |
| `Text.Text.InsertStyle` | ls_improved/lsi_text.py:55-62 | succeeds exactly when a span covers the position, then cuts it; on failure, where the source raises, nothing changes |
| `Text.Text.Render` | ls_improved/lsi_text.py:65-72 | sorts the style in place and returns the painted string, or nothing when a tag has no colour |
| `Text.FromTagText` | ls_improved/lsi_text.py:8-45 | returns the tag-stripped text and the fresh style |
| `Text.SplitPass` | ls_improved/lsi_text.py:23-36 | one outer turn splits every piece on the tag |
| `Text.SplitOne` | ls_improved/lsi_text.py:25-33 | splitting one piece gives it the first part and new pieces for the rest |
| `Text.LayOut` | ls_improved/lsi_text.py:37-44 | the loop concatenates the pieces and lays out their spans |
| `Visual.BlankNewlines` | ls_improved/lsi_visual.py:34 | the joining blank holds exactly one newline |
| `Visual.IndentedNewlines` | ls_improved/lsi_visual.py:30-41 | the indented description keeps every newline, except one when a trailing blank line is dropped |
| `Visual.IndentedOneLine` | ls_improved/lsi_visual.py:35-41 | a one-line description only gets `;end;` appended |
| `Visual.PathColorsFound` | ls_improved/lsi_visual.py:62-64 | the dir, file and end colours exist |
| `Visual.ColoredPathStrips` | ls_improved/lsi_visual.py:59-64 | a Dir or File path is wrapped in its kind's colour and the end code |
| `Visual.MarkedPathPlain` | ls_improved/lsi_visual.py:84-87 | the search markers of a Dir or File path always resolve, and a path without `;` is unchanged |
| `Visual.RecoloredPlain` | ls_improved/lsi_visual.py:110-112 | a segment without `;` is unchanged by the marker replacements |
| `Visual.ColoredSegmentsDefined` | ls_improved/lsi_visual.py:108-114 | when every segment's tag has a colour, the description is built |
| `Visual.ColoredDescriptionDefined` | ls_improved/lsi_visual.py:92-115 | with the tag table's split order, every description can be coloured |
| `Visual.PlainIsOnePiece` | ls_improved/lsi_visual.py:92-107 | a description without `;` stays one `;desc;` segment |
| `Visual.ColoredDescriptionPlain` | ls_improved/lsi_visual.py:92-115 | a description without `;` becomes the description colour followed by the text |
| `Visual.LastDescriptionUnchanged` | ls_improved/lsi_visual.py:137-139 | for the last item the description changes exactly when it holds a bar |
| `Visual.LineParts` | ls_improved/lsi_visual.py:160-166 | the line is the head, `3*depth` letters `a`, the indent, the path, ` / ` and the description or the type |
| `Visual.Item.AddIndentToNewLine` | ls_improved/lsi_visual.py:27-42 | no description gives status 1 and no change; otherwise a trailing blank line is dropped, lines are joined by the blank and `;end;` is appended |
| `Visual.Item.AddColorToPath` | ls_improved/lsi_visual.py:59-66 | a Dir or File path is wrapped in its colour and end; other types are unchanged; status 0 |
| `Visual.Item.Tag2Color` | ls_improved/lsi_visual.py:83-117 | the path's search markers are resolved; no description gives status 1; otherwise the description becomes its coloured segments and status 0 |
| `Visual.Item.SelectIndentHead` | ls_improved/lsi_visual.py:135-140 | place 0 gives `├` and no change; place 1 gives `└` and rewrites each bar as a space |
| `Visual.Item.ConcatItem` | ls_improved/lsi_visual.py:160-168 | the output is the head, the indent, the path, ` / ` and the description or the type |
| `Visual.Item.Run` | ls_improved/lsi_visual.py:188-197 | indent, then tag colours, then path colour, then concatenation |
| `Visual.MarkPath` | ls_improved/lsi_visual.py:84-87 | the path's search markers are resolved as the table gives them |
| `Visual.SplitDescription` | ls_improved/lsi_visual.py:92-107 | the nested loops split the description on each tag of the order |
| `Visual.ColorSegments` | ls_improved/lsi_visual.py:108-114 | the loop concatenates each segment's colour and recoloured text |
| `Visual.ColorDescription` | ls_improved/lsi_visual.py:92-115 | the description is split, then its segments are coloured |
| `Visual.UndescribedLine` | ls_improved/lsi_visual.py:188-197 | an item without a description becomes the head, the coloured path, ` / ` and the type |
| `Visual.DescribedLineDefined` | ls_improved/lsi_visual.py:188-197 | an item with a description gives a line exactly when its path length is known |
| `Strings.ReplaceAllIsJoinOfSplit` | ls_improved/lsi_content.py:69 | `replace` gives the pieces of `split` joined with the replacement |
| `Strings.SplitJoin` | ls_improved-python/lsi_content.py:58 | the pieces of `split` joined with the separator give back the text |
| `Content.MasksDistinct` | ls_improved/lsi_content.py:59-62 | no mask token occurs inside another |
| `Content.MaskTags` | ls_improved/lsi_content.py:68-69 | the loop hides every tag of the colour table behind its mask, in table order |
| `Content.UnmaskTags` | ls_improved/lsi_content.py:78-79 | the loop turns every mask back into its tag, in table order |
| `Content.MaskedPlain` | ls_improved/lsi_content.py:68-69 | a description without `;` has nothing to mask |
| `Content.UnmaskedPlain` | ls_improved/lsi_content.py:78-79 | a text without a backslash has nothing to unmask |
| `Content.MaskPassFlat` | ls_improved/lsi_content.py:68-69 | one `replace` of a tag by its mask, on a description cut at the masks placed so far, gives the cut whose texts are split at the tag with that mask between the pieces |
| `Content.MaskPassExpanded` | ls_improved/lsi_content.py:68-69 | splitting the texts at a tag does not change what the cut gives once every mask is replaced by its tag |
| `Content.MaskedCutFlat` | ls_improved/lsi_content.py:59-69 | after the first `k` turns of the masking loop, the description is the texts of the cut with the masks between them |
| `Content.MaskedCutExpanded` | ls_improved/lsi_content.py:59-69 | putting each mask's tag back between the texts of the cut gives the original description |
| `Content.MaskedCutWithin` | ls_improved/lsi_content.py:68-69 | every text between the masks is a part of the original description |
| `Content.UnmaskedCleanCut` | ls_improved/lsi_content.py:78-79 | when no text between the masks holds a backslash or a run of 21 `;`, the unmasking loop turns every mask back into its own tag and changes nothing else |
| `Content.MaskRoundTrip` | ls_improved/lsi_content.py:59-79 | a description with no backslash and no run of 21 `;` comes back unchanged from masking followed by unmasking |
| `Content.ContainsWeave` | ls_improved/lsi_content.py:70 | an accepted word occurs in the masked description exactly when it occurs in one of the texts between the masks; it never runs into a mask |
| `Content.HighlightFlat` | ls_improved/lsi_content.py:77 | replacing an accepted word in the masked description highlights it inside each text between the masks and leaves the masks as they are |
| `Content.SearchedKeeps` | ls_improved/lsi_content.py:64-80 | an item is kept exactly when the word is in its path or its masked description; a matching path shows the highlighted word; a path without it is unchanged; an item matching by path alone keeps its description |
| `Content.SearchedKeepsTags` | ls_improved/lsi_content.py:64-80 | for an accepted word and a description with no backslash and no run of 21 `;`, the description matches exactly when the word is in a text between its tags; the new description is then those texts with the word highlighted and every tag back in its place, and otherwise the description is unchanged |
| `Content.SearchedPlain` | ls_improved/lsi_content.py:66-80 | for text free of tags and backslashes, every occurrence of the word in the description is highlighted |
| `Content.SearchItem` | ls_improved/lsi_content.py:65-80 | one item's path and description are searched and highlighted |
| `Content.Visit` | ls_improved/lsi_content.py:64-84 | the item is updated in place only when it is kept |
| `Content.PickSound` | ls_improved/lsi_content.py:81-84 | an item is in the output exactly when some position holds it with its flag set and it is of that kind; the output is no longer than the input |
| `Content.SearchItems` | ls_improved/lsi_content.py:63-86 | every item is searched and updated; kept directories and files come out in input order |
| `Content.SearchChildren` | ls_improved/lsi_content.py:44-88 | an empty word raises; a refused word gives status 1 and no children and changes nothing; otherwise status 0 and the kept items by kind |
| `Content.LimitFileNum` | ls_improved/lsi_content.py:111-122 | status 0 and the same children at or under the limit; above it, status 1 and the same children on a yes, status 2 and none otherwise |
| `Content.Run` | ls_improved/lsi_content.py:142-149 | search only for a non-empty word, limit only when it is nonzero, status always 0; for an empty or refused word no item changes, otherwise each item's path and description become what the search makes of them |
| `ContentText.Marks` | ls_improved-python/lsi_content.py:57-64 | the loop makes two `insert_style` calls per piece |
| `ContentText.MarksRange` | ls_improved-python/lsi_content.py:58-64 | the first call is right after the first piece, and the last is the word's length past the end of the text |
| `ContentText.AppliedIff` | ls_improved-python/lsi_content.py:62-63 | a run of `insert_style` calls succeeds exactly when every position is inside the text, and the style keeps covering it |
| `ContentText.HighlightingApplied` | ls_improved-python/lsi_content.py:59-64 | turn by turn, the loop makes exactly the calls `Marks` lists |
| `ContentText.InsertPair` | ls_improved-python/lsi_content.py:60-64 | one turn inserts `;ss;` after the piece and `;se;` the word's length further on |
| `ContentText.InsertMarks` | ls_improved-python/lsi_content.py:59-64 | the loop leaves the text alone and succeeds exactly when all its calls do |
| `ContentText.WrittenMarksFail` | ls_improved-python/lsi_content.py:60-64 | as written, the calls always fail on the last piece |
| `ContentText.WrittenMarksFailExample` | ls_improved-python/lsi_content.py:57-64 | searching `abc` for `b` asks for `;se;` at 4 in a text of length 3 |
| `ContentText.HighlightAsWritten` | ls_improved-python/lsi_content.py:57-64 | highlighting a text as written never succeeds |
| `ContentText.MatchStartsLeftmost` | ls_improved-python/lsi_content.py:66 | the positions between the pieces of `split` are occurrences of the word, each starting at or after the end of the one before, and every occurrence starts inside one of them |
| `ContentText.MatchStartsPaired` | ls_improved-python/lsi_content.py:66-72 | the calls made for all pieces but the last are one `;ss;`/`;se;` pair at the start and end of each of those positions |
| `ContentText.CorrectedMarksAtMatches` | ls_improved-python/lsi_content.py:66-72 | corrected loop: `;ss;` at each match's start and `;se;` at its end, one pair per match, for exactly the matches a left-to-right scan of the lowered text finds |
| `ContentText.CorrectedMarksIff` | ls_improved-python/lsi_content.py:66-72 | one pair of calls per match succeeds exactly when the text does not start with the word |
| `ContentText.Highlight` | ls_improved-python/lsi_content.py:65-72 | corrected loop (one pair per match, see Findings): the highlight succeeds exactly when the lowered text does not start with the word, and then keeps the style covering the text |
| `ContentText.HighlightedIff` | ls_improved-python/lsi_content.py:56-72 | corrected loop: a text is left as it is or highlighted, and this fails exactly when its lowered text starts with the word |
| `ContentText.VisitedIff` | ls_improved-python/lsi_content.py:48-72 | corrected loop: an item can be visited exactly when neither text starts with the word; its texts stay and its styles still cover them |
| `ContentText.Visit` | ls_improved-python/lsi_content.py:48-76 | corrected loop: an item matches exactly when the lowered word is in its lowered path or description, and each matching text gets the corrected marks |
| `ContentText.SearchedIff` | ls_improved-python/lsi_content.py:47-76 | corrected loop: the search succeeds exactly when no item's text starts with the word, and then keeps every item's texts |
| `ContentText.SearchItems` | ls_improved-python/lsi_content.py:46-76 | corrected loop: every item is visited in order; matching directories and files come out in input order |
| `ContentText.SearchChildren` | ls_improved-python/lsi_content.py:23-78 | corrected loop: status 0 with every item in its searched state and the matching items by kind, or a raise |
| `ContentText.Run` | ls_improved-python/lsi_content.py:114-139 | corrected loop: search on the lowered word only when it is not empty, limit only when it is nonzero, status 0 unless the search raises; an empty word changes no item, otherwise every item is left in its searched state |

## Left out

- Filesystem and operating-system calls are parameters or the in-memory `Fs.Disk`. These include `read_dir`, `is_dir`/`is_file`, `canonicalize`, file open/read/write and `create_dir`, and Python `glob`/`os.path`/`open`.
- Fs.Disk.WriteDescription: file creation and writing always succeed in the model, because the I/O errors they could raise come from the operating system.
- The Python item loader's I/O functions are not modelled: `_get_children`, the permission and exception branches of `_read_description`, `read_file_description`, `_create_item` and `get_items`. Only their trailing-slash normalisation is.
- `ls_improved/lsi_itemloader.py` wraps paths and descriptions in `Text` objects. `ls_improved/lsi_content.py` and `ls_improved/lsi_visual.py` treat them as strings, and so does the model of those two files (`Visual.Item`).
- CLI parsing, the asynchronous stdin read, argparse and the `mkdiri` commands are not modelled: they are user interface and process side effects (`src/main.rs`, `src/mkdiri.rs`, `ls_improved/lsi.py`, `ls_improved/mkdiri.py`).
- TOML parsing is a parameter `parse` that may return None. The `.file_description_lsi` reader of `src/file_description.rs` is not modelled either.
- `UnicodeWidthStr::width` is a parameter `width`.
- The regex crate is modelled only for the literal patterns the code uses, as a leftmost non-overlapping `Strings.ReplaceAll`.
- Decoration.ReplaceLsiColorCode: the configured colour is substituted literally. `Regex::replace_all` expands `$1`, `${name}` and `$$` in its replacement, so the model matches the code only for colour strings without `$`.
- Content.SearchedKeepsTags: the promise that the tags come back in place is proved only for descriptions with no backslash and no run of 21 `;` (likewise `Content.MaskRoundTrip`). For other descriptions a mask token can run into the neighbouring text and unmask into a different tag: with `q;r;` + 22 `;` + `;r;` and the word `q`, both masks of `;r;` become a token `\` + 30 `;` + `\`, and the unmask pass of `;pwd_c;` matches across the two. `Content.Searched` computes what the code computes in that case too, but no lemma describes it.
- Path.SortPaths: the contract states a permutation in order, not that equal keys keep their order as the stable `Vec::sort` does.
- Text.OneTagRemoved: states only the one-tag case. With several tags, removing one tag can join text into another tag that was already processed (`;r;g;;` split on `;g;` and then `;r;` gives `;r;`), so the several-tag removal does not hold in the source.
- `println!` and `print` output is returned as strings. The interactive `input()` prompt is replaced by a `reply` parameter, and the invalid-word message is not modelled.
- Python `str.lower` is ASCII-only in the model (`Strings.Lower`). Non-ASCII case mapping is a Unicode table.
- Python `set` iteration order is a parameter `order`.
- The `ls-improved/` drafts do not build, so they are not modelled. `ls_improved/lsi_ref.py` is cut off.
- `~/.lsirc` reading, the unused `ANSI_ESCAPE_SEQUENCE_PATTERN`, `setup.py`, and the declaration files `src/errors.rs` and `src/lib.rs` are not modelled as behaviour. The last two become the datatypes `Errors.LsiError` and `Lsi.LsiArgs`.
- Lsi.Run: the contract states the error mapping, the number of lines and the breadcrumb. It does not restate each entry line, which `View.Display` states.
- Lsi.LoadAndDisplay: the contract states the line count and the breadcrumb. The entry lines are stated by `View.Display`.

## Findings

| source | as written | input that shows it | evidently intended | confidence | as-written member | corrected member |
|---|---|---|---|---|---|---|
| ls_improved-python/lsi_content.py:60-72 | The loop over `split(search_word)` also runs for the piece after the last match. It asks `insert_style` for `;se;` at the text's length plus the word's length, where no span ends, so `end_pos` is unbound and every match raises `UnboundLocalError`. | path `abc`, search word `b`: the calls are `;ss;`@1, `;se;`@2, `;ss;`@3, `;se;`@4, and 4 lies past the text of length 3 | one `;ss;`/`;se;` pair per match, that is for every piece but the last | high; not executed | `ContentText.WrittenMarksFail` | `ContentText.CorrectedMarksIff` |
