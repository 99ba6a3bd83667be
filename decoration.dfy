/** `src/decoration.rs`: the three passes that rewrite an entry's
    description in place before it is displayed. */
module Decoration {
  import opened Results
  import opened Strings
  import opened Config
  import opened Colors
  import opened Errors
  import opened Path

  // ---------------------------------------------------------------------
  // What each pass computes
  // ---------------------------------------------------------------------

  /** The marker pass: nine substitutions, one after another, each on the
      output of the previous one. `;e;` becomes `end` followed by the
      description colour, so the text after it keeps the description's
      colour. */
  function MarkerPass(d: string, c: Colors): string
  {
    var d1 := ReplaceAll(d, ";r;", c.red);
    var d2 := ReplaceAll(d1, ";g;", c.green);
    var d3 := ReplaceAll(d2, ";y;", c.yellow);
    var d4 := ReplaceAll(d3, ";b;", c.blue);
    var d5 := ReplaceAll(d4, ";p;", c.purple);
    var d6 := ReplaceAll(d5, ";c;", c.cyan);
    var d7 := ReplaceAll(d6, ";w;", c.white);
    var d8 := ReplaceAll(d7, ";_;", c.underline);
    ReplaceAll(d8, ";e;", c.end + c.description)
  }

  /** The unescape pass: every four-character `\033` becomes ESC. */
  function Unescape(d: string): string
  {
    ReplaceAll(d, EscapeText, [Esc])
  }

  /** How many description lines are shown: all of them without a limit,
      otherwise the limit capped at the number of lines. */
  function LineCount(lines: nat, lineNum: Option<nat>): (n: nat)
    ensures n <= lines
    ensures lineNum.None? ==> n == lines
    ensures lineNum.Some? ==> n == if lineNum.value < lines then lineNum.value else lines
  {
    match lineNum
    case Some(k) => if k > lines then lines else k
    case None => lines
  }

  /** `encolor_description`. */
  function Encolor(line: string, c: Colors): string
  {
    c.description + line + c.end
  }

  /** The text appended for one continuation line: a newline, the tree
      column (blank under the last entry), three spaces, padding as wide as
      the entry's name, a tab and two spaces, then the coloured line. */
  function Continuation(line: string, c: Colors, isLast: bool, width: nat): string
  {
    "\n" + (if isLast then " " else "│") + "   " + Repeat(' ', width) + "\t  " + Encolor(line, c)
  }

  /** The first line coloured, then lines `1 .. k` as continuations. */
  function Formatted(lines: seq<string>, k: nat, c: Colors, isLast: bool, width: nat): string
    requires 0 < |lines| && k <= |lines|
  {
    if k <= 1 then Encolor(lines[0], c)
    else Formatted(lines, k - 1, c, isLast, width) + Continuation(lines[k - 1], c, isLast, width)
  }

  /** The multi-line pass on a present description. */
  function Multiline(d: string, c: Colors, lineNum: Option<nat>, isLast: bool, width: nat): string
  {
    var lines := Split(d, '\n');
    Formatted(lines, LineCount(|lines|, lineNum), c, isLast, width)
  }

  /** All three passes. */
  function Decorated(d: string, c: Colors, lineNum: Option<nat>, isLast: bool, width: nat): string
  {
    Multiline(Unescape(MarkerPass(d, c)), c, lineNum, isLast, width)
  }

  // ---------------------------------------------------------------------
  // The passes on an entry
  // ---------------------------------------------------------------------

  /** `replace_lsi_color_code`. */
  method ReplaceLsiColorCode(p: LsiPath, colors: Colors) returns (r: Result<(), LsiError>)
    modifies p
    ensures old(p.description).None? ==> r == Err(DescriptionNotFound) && p.description == None
    ensures old(p.description).Some? ==>
              r == Ok(()) && p.description == Some(MarkerPass(old(p.description).value, colors))
  {
    match p.GetDescription() {
      case Some(content) =>
        var s := ReplaceAll(content, ";r;", colors.red);
        s := ReplaceAll(s, ";g;", colors.green);
        s := ReplaceAll(s, ";y;", colors.yellow);
        s := ReplaceAll(s, ";b;", colors.blue);
        s := ReplaceAll(s, ";p;", colors.purple);
        s := ReplaceAll(s, ";c;", colors.cyan);
        s := ReplaceAll(s, ";w;", colors.white);
        s := ReplaceAll(s, ";_;", colors.underline);
        s := ReplaceAll(s, ";e;", colors.end + colors.description);
        p.SetDescription(s);
        r := Ok(());
      case None =>
        r := Err(DescriptionNotFound);
    }
  }

  /** `replace_ansi_color_code`. */
  method ReplaceAnsiColorCode(p: LsiPath) returns (r: Result<(), LsiError>)
    modifies p
    ensures old(p.description).None? ==> r == Err(DescriptionNotFound) && p.description == None
    ensures old(p.description).Some? ==>
              r == Ok(()) && p.description == Some(Unescape(old(p.description).value))
  {
    match p.GetDescription() {
      case Some(content) =>
        p.SetDescription(ReplaceAll(content, EscapeText, [Esc]));
        r := Ok(());
      case None =>
        r := Err(DescriptionNotFound);
    }
  }

  /** `format_multiline`; `width` stands for the display width that
      `LsiPath::len` measures. */
  method FormatMultiline(p: LsiPath, colors: Colors, lineNum: Option<nat>, isLast: bool, width: string -> nat)
    returns (r: Result<(), LsiError>)
    modifies p
    ensures old(p.description).None? ==> r == Err(DescriptionNotFound) && p.description == None
    ensures old(p.description).Some? ==>
              r == Ok(()) && p.description == Some(Multiline(old(p.description).value, colors, lineNum, isLast, p.Len(width)))
  {
    var len := p.Len(width);
    match p.GetDescription() {
      case Some(content) =>
        var desc := Split(content, '\n');
        var num := match lineNum case Some(n) => if n > |desc| then |desc| else n case None => |desc|;
        assert num == LineCount(|desc|, lineNum);
        if num == 1 {
          p.SetDescription(Encolor(desc[0], colors));
        } else {
          var description := Encolor(desc[0], colors);
          var treePrefix := if isLast then " " else "│";
          var i := 1;
          while i < num
            invariant num <= |desc| && 1 <= i <= (if num == 0 then 1 else num)
            invariant description == Formatted(desc, i, colors, isLast, len)
          {
            var line := "\n" + treePrefix + "   " + Repeat(' ', len) + "\t  " + Encolor(desc[i], colors);
            assert line == Continuation(desc[i], colors, isLast, len);
            description := description + line;
            i := i + 1;
          }
          assert i == num || (num == 0 && i == 1);
          assert description == Formatted(desc, num, colors, isLast, len);
          p.SetDescription(description);
        }
        r := Ok(());
      case None =>
        r := Err(DescriptionNotFound);
    }
  }

  /** `decoration::run`: the three passes in order, their errors ignored. */
  method Run(p: LsiPath, colors: Colors, descNum: Option<nat>, isLast: bool, width: string -> nat)
    returns (r: Result<(), LsiError>)
    modifies p
    ensures r == Ok(())
    ensures old(p.description).None? ==> p.description == None
    ensures old(p.description).Some? ==>
              p.description == Some(Decorated(old(p.description).value, colors, descNum, isLast, p.Len(width)))
  {
    var _ := ReplaceLsiColorCode(p, colors);
    var _ := ReplaceAnsiColorCode(p);
    var _ := FormatMultiline(p, colors, descNum, isLast, width);
    r := Ok(());
  }

  // ---------------------------------------------------------------------
  // Properties
  // ---------------------------------------------------------------------

  /** After the unescape pass no `\033` is left, and a second pass changes
      nothing: ESC is not a character of the pattern. */
  lemma UnescapeIdempotent(d: string)
    ensures !Contains(Unescape(d), EscapeText)
    ensures Unescape(Unescape(d)) == Unescape(d)
  {
    ReplaceAllRemovesPattern(d, EscapeText, [Esc]);
    ReplaceAllIdempotent(d, EscapeText, [Esc]);
  }

  /** A description without `;` is left alone by the marker pass. */
  lemma NoMarkersUnchanged(d: string, c: Colors)
    requires ';' !in d
    ensures MarkerPass(d, c) == d
  {
    ContainsNeedsFirstChar(d, ";r;");
    ReplaceAllAbsent(d, ";r;", c.red);
    ContainsNeedsFirstChar(d, ";g;");
    ReplaceAllAbsent(d, ";g;", c.green);
    ContainsNeedsFirstChar(d, ";y;");
    ReplaceAllAbsent(d, ";y;", c.yellow);
    ContainsNeedsFirstChar(d, ";b;");
    ReplaceAllAbsent(d, ";b;", c.blue);
    ContainsNeedsFirstChar(d, ";p;");
    ReplaceAllAbsent(d, ";p;", c.purple);
    ContainsNeedsFirstChar(d, ";c;");
    ReplaceAllAbsent(d, ";c;", c.cyan);
    ContainsNeedsFirstChar(d, ";w;");
    ReplaceAllAbsent(d, ";w;", c.white);
    ContainsNeedsFirstChar(d, ";_;");
    ReplaceAllAbsent(d, ";_;", c.underline);
    ContainsNeedsFirstChar(d, ";e;");
    ReplaceAllAbsent(d, ";e;", c.end + c.description);
  }

  /** The text appended for a continuation line holds exactly one newline
      when the line and the two colours hold none. */
  lemma ContinuationNewlines(line: string, c: Colors, isLast: bool, width: nat)
    requires '\n' !in line && '\n' !in c.description && '\n' !in c.end
    ensures Count(Continuation(line, c, isLast, width), '\n') == 1
  {
    var pad := Repeat(' ', width);
    var tail := (if isLast then " " else "│") + "   " + pad + "\t  " + Encolor(line, c);
    assert '\n' !in pad;
    assert '\n' !in tail by {
      assert tail == (if isLast then " " else "│") + "   " + pad + "\t  " + c.description + line + c.end;
    }
    assert Continuation(line, c, isLast, width) == "\n" + tail;
    CountConcat("\n", tail, '\n');
    CountAbsent(tail, '\n');
  }

  /** The formatted text of `k` lines holds `k - 1` newlines (none for `k`
      of 0 or 1). */
  lemma {:induction false} FormattedNewlines(lines: seq<string>, k: nat, c: Colors, isLast: bool, width: nat)
    requires 0 < |lines| && k <= |lines|
    requires forall j :: 0 <= j < |lines| ==> '\n' !in lines[j]
    requires '\n' !in c.description && '\n' !in c.end
    ensures Count(Formatted(lines, k, c, isLast, width), '\n') == if k <= 1 then 0 else k - 1
  {
    if k <= 1 {
      assert '\n' !in Encolor(lines[0], c);
      CountAbsent(Encolor(lines[0], c), '\n');
    } else {
      FormattedNewlines(lines, k - 1, c, isLast, width);
      ContinuationNewlines(lines[k - 1], c, isLast, width);
      CountConcat(Formatted(lines, k - 1, c, isLast, width), Continuation(lines[k - 1], c, isLast, width), '\n');
    }
  }

  /** The multi-line pass shows exactly the shown-line count of lines (at
      least one): its output has one newline fewer, provided the
      description and end colours hold no newline. */
  lemma MultilineLineCount(d: string, c: Colors, lineNum: Option<nat>, isLast: bool, width: nat)
    requires '\n' !in c.description && '\n' !in c.end
    ensures var n := LineCount(Count(d, '\n') + 1, lineNum);
            Count(Multiline(d, c, lineNum, isLast, width), '\n') == if n <= 1 then 0 else n - 1
  {
    SplitCount(d, '\n');
    FormattedNewlines(Split(d, '\n'), LineCount(|Split(d, '\n')|, lineNum), c, isLast, width);
  }

  /** Lines beyond the shown count play no part. */
  lemma {:induction false} LaterLinesIgnored(lines: seq<string>, k: nat, more: seq<string>, c: Colors, isLast: bool, width: nat)
    requires 0 < |lines| && k <= |lines|
    ensures Formatted(lines + more, k, c, isLast, width) == Formatted(lines, k, c, isLast, width)
  {
    if k > 1 {
      LaterLinesIgnored(lines, k - 1, more, c, isLast, width);
      assert (lines + more)[k - 1] == lines[k - 1];
    }
  }

  /** With one shown line, or a limit of 0 (the loop over `1..0` is empty),
      the result is the first line coloured. */
  lemma FewLinesIsFirstLine(d: string, c: Colors, lineNum: Option<nat>, isLast: bool, width: nat)
    requires LineCount(|Split(d, '\n')|, lineNum) <= 1
    ensures Multiline(d, c, lineNum, isLast, width) == c.description + Split(d, '\n')[0] + c.end
  {
  }

  /** The substitutions run one after another, so a configured colour that
      itself holds a later marker is rewritten by the later pass: with red
      configured as the text `;g;`, the marker `;r;` ends up as the green
      code. */
  lemma SubstitutionIsSequential()
    ensures var c := Colors(";g;", "B", "G", "W", "P", "Y", "C", "U", "E", "D", "CD", "F", "DS");
            MarkerPass(";r;", c) == "G"
  {
    var c := Colors(";g;", "B", "G", "W", "P", "Y", "C", "U", "E", "D", "CD", "F", "DS");
    assert ReplaceAll(";r;", ";r;", c.red) == ";g;" by {
      assert ";r;"[3..] == "";
    }
    assert ReplaceAll(";g;", ";g;", c.green) == "G" by {
      assert ";g;"[3..] == "";
    }
    NoMarkersUnchanged("G", c);
    assert MarkerPass(";r;", c) == MarkerPass("G", c);
  }

  /** The end marker restores the description colour: `;e;` alone becomes
      `end` followed by the description colour, whatever the palette. */
  lemma EndMarkerRestoresDescription(c: Colors)
    ensures MarkerPass(";e;", c) == c.end + c.description
  {
    var e := ";e;";
    OtherMarkerAbsent('r', 'e');
    OtherMarkerAbsent('g', 'e');
    OtherMarkerAbsent('y', 'e');
    OtherMarkerAbsent('b', 'e');
    OtherMarkerAbsent('p', 'e');
    OtherMarkerAbsent('c', 'e');
    OtherMarkerAbsent('w', 'e');
    OtherMarkerAbsent('_', 'e');
    ReplaceAllAbsent(e, ";r;", c.red);
    ReplaceAllAbsent(e, ";g;", c.green);
    ReplaceAllAbsent(e, ";y;", c.yellow);
    ReplaceAllAbsent(e, ";b;", c.blue);
    ReplaceAllAbsent(e, ";p;", c.purple);
    ReplaceAllAbsent(e, ";c;", c.cyan);
    ReplaceAllAbsent(e, ";w;", c.white);
    ReplaceAllAbsent(e, ";_;", c.underline);
    assert ReplaceAll(e, e, c.end + c.description) == c.end + c.description by {
      assert e[3..] == "";
    }
  }

  /** The marker of one letter does not occur in the marker of another. */
  lemma OtherMarkerAbsent(x: char, y: char)
    requires x != y
    ensures !Contains([';', y, ';'], [';', x, ';'])
  {
    var s, pat := [';', y, ';'], [';', x, ';'];
    assert !(pat <= s) by { assert s[1] != pat[1]; }
    var s1, s2, s3 := s[1..], s[1..][1..], s[1..][1..][1..];
    assert |s1| == 2 && |s2| == 1 && s3 == [];
    assert !Contains(s3, pat);
    assert !Contains(s2, pat);
    assert !Contains(s1, pat);
  }

  /** A one-line description with no marker, escape or newline text comes
      through all three passes only wrapped in the description colour and
      `end`. */
  lemma PlainDescriptionKept(d: string, c: Colors, lineNum: Option<nat>, isLast: bool, width: nat)
    requires ';' !in d && '\\' !in d && '\n' !in d
    ensures Decorated(d, c, lineNum, isLast, width) == c.description + d + c.end
  {
    NoMarkersUnchanged(d, c);
    ContainsNeedsFirstChar(d, EscapeText);
    ReplaceAllAbsent(d, EscapeText, [Esc]);
    ContainsNeedsFirstChar(d, "\n");
    SplitOnSingle(d, "\n");
  }
}
