/** `ls_improved/lsi_text.py`: the `Text` buffer, a string with a list of
    coloured spans over it. It is built from text with inline `;…;` tags,
    grows by `insert_text`, is cut by `insert_style` and is shown by
    `render`, which sorts the spans by start and paints each one. */
module Text {
  import opened Results
  import opened Strings
  import opened ImprovedConfig

  /** One entry of `self.style`: a tag and the offsets `[start, end)` it
      colours. */
  datatype Span = Span(tag: string, start: int, end: int)

  /** One element of the list `_from_tag_text` builds: a tag and the text
      it colours. */
  datatype Piece = Piece(tag: string, text: string)

  /** The tag of the zero-length span that closes every style list. */
  const EndTag: string := Tag(End)

  // ---------------------------------------------------------------------
  // _from_tag_text, as functions
  // ---------------------------------------------------------------------

  /** The pieces one piece splits into on `tag`: the text before the first
      occurrence keeps the piece's tag, each later part takes `tag`. */
  function SplitPiece(p: Piece, tag: string): seq<Piece>
    requires |tag| > 0
  {
    var parts := SplitOn(p.text, tag);
    Tagged(p.tag, tag, parts)
  }

  /** `parts[0]` under `first`, every later part under `tag`. */
  function Tagged(first: string, tag: string, parts: seq<string>): (r: seq<Piece>)
    requires |parts| > 0
    ensures |r| == |parts|
    ensures forall i :: 0 <= i < |r| ==> r[i].text == parts[i]
    ensures r[0].tag == first && forall i :: 1 <= i < |r| ==> r[i].tag == tag
  {
    [Piece(first, parts[0])] + seq(|parts| - 1, i requires 0 <= i < |parts| - 1 => Piece(tag, parts[i + 1]))
  }

  /** One more part is one more piece under `tag`. */
  lemma TaggedSnoc(first: string, tag: string, parts: seq<string>, k: nat)
    requires 0 < k < |parts|
    ensures Tagged(first, tag, parts[..k + 1]) == Tagged(first, tag, parts[..k]) + [Piece(tag, parts[k])]
  {
    var a := Tagged(first, tag, parts[..k + 1]);
    var b := Tagged(first, tag, parts[..k]) + [Piece(tag, parts[k])];
    forall i | 0 <= i < |a| ensures a[i] == b[i] {
      if i < k {
        assert parts[..k + 1][i] == parts[..k][i];
      }
    }
  }

  /** One pass of the outer loop: every piece split on `tag`, in order. */
  function SplitPieces(ps: seq<Piece>, tag: string): seq<Piece>
    requires |tag| > 0
    decreases |ps|
  {
    if |ps| == 0 then []
    else SplitPieces(ps[..|ps| - 1], tag) + SplitPiece(ps[|ps| - 1], tag)
  }

  /** Every pass, over the tags in the order they are visited. */
  function SplitAll(ps: seq<Piece>, order: seq<TagName>): seq<Piece>
    decreases |order|
  {
    if |order| == 0 then ps
    else
      TagsAreMarkers(order[|order| - 1]);
      SplitPieces(SplitAll(ps, order[..|order| - 1]), Tag(order[|order| - 1]))
  }

  /** The concatenated texts of the pieces. */
  function Texts(ps: seq<Piece>): string
    decreases |ps|
  {
    if |ps| == 0 then "" else Texts(ps[..|ps| - 1]) + ps[|ps| - 1].text
  }

  /** The spans of the pieces, laid end to end from offset 0. */
  function Spans(ps: seq<Piece>): (r: seq<Span>)
    ensures |r| == |ps|
    decreases |ps|
  {
    if |ps| == 0 then []
    else
      var init := ps[..|ps| - 1];
      Spans(init) + [Span(ps[|ps| - 1].tag, |Texts(init)|, |Texts(init)| + |ps[|ps| - 1].text|)]
  }

  /** The style list `_from_tag_text` returns: the spans of the pieces and
      a closing zero-length `;end;` span. */
  function Layout(ps: seq<Piece>): seq<Span>
  {
    Spans(ps) + [Span(EndTag, |Texts(ps)|, |Texts(ps)|)]
  }

  /** The pieces of a fresh `Text`. */
  function FreshPieces(text: string, startColor: string, order: seq<TagName>): seq<Piece>
  {
    SplitAll([Piece(startColor, text)], order)
  }

  // ---------------------------------------------------------------------
  // Shapes of a style list
  // ---------------------------------------------------------------------

  /** The spans lie end to end from 0 to `n`, each with start <= end. */
  predicate Tiles(style: seq<Span>, n: int)
  {
    |style| > 0 && style[0].start == 0 && style[|style| - 1].end == n
    && (forall k :: 0 <= k < |style| ==> style[k].start <= style[k].end)
    && (forall k :: 0 <= k < |style| - 1 ==> style[k].end == style[k + 1].start)
  }

  /** The first `|ps|` spans colour the pieces: same tag, and the span's
      slice of `text` is the piece's text. */
  predicate ShowsPieces(style: seq<Span>, text: string, ps: seq<Piece>)
    requires |style| >= |ps|
  {
    forall k :: 0 <= k < |ps| ==>
      0 <= style[k].start <= style[k].end <= |text| && style[k].tag == ps[k].tag
      && text[style[k].start..style[k].end] == ps[k].text
  }

  /** Every offset in `(0, n]` is the end or the inside of some span, and
      every span lies in `[0, n]`: the shape `insert_style` needs. */
  predicate Covers(style: seq<Span>, n: int)
  {
    (forall k :: 0 <= k < |style| ==> 0 <= style[k].start <= style[k].end <= n)
    && forall q :: 0 < q <= n ==> CoveredAt(style, q)
  }

  /** Some span has `start < q <= end`. */
  predicate CoveredAt(style: seq<Span>, q: int)
  {
    exists k :: 0 <= k < |style| && style[k].start < q <= style[k].end
  }

  // ---------------------------------------------------------------------
  // Properties of _from_tag_text
  // ---------------------------------------------------------------------

  lemma {:induction false} TextsAppend(a: seq<Piece>, b: seq<Piece>)
    ensures Texts(a + b) == Texts(a) + Texts(b)
    decreases |b|
  {
    if |b| > 0 {
      var b' := b[..|b| - 1];
      assert (a + b)[..|a + b| - 1] == a + b';
      assert (a + b)[|a + b| - 1] == b[|b| - 1];
      TextsAppend(a, b');
      calc {
        Texts(a + b);
        Texts(a + b') + b[|b| - 1].text;
        Texts(a) + Texts(b') + b[|b| - 1].text;
        Texts(a) + (Texts(b') + b[|b| - 1].text);
        Texts(a) + Texts(b);
      }
    } else {
      assert a + b == a;
    }
  }

  /** The texts of the tagged parts are the parts joined with nothing. */
  lemma {:induction false} TaggedTexts(first: string, tag: string, parts: seq<string>)
    requires |parts| > 0
    ensures Texts(Tagged(first, tag, parts)) == Join(parts, "")
    decreases |parts|
  {
    var r := Tagged(first, tag, parts);
    if |parts| == 1 {
      assert r == [] + [r[0]];
    } else {
      var rest := Tagged(tag, tag, parts[1..]);
      assert r == [r[0]] + rest;
      TextsAppend([r[0]], rest);
      assert [r[0]] == [] + [r[0]];
      TaggedTexts(tag, tag, parts[1..]);
    }
  }

  /** Splitting a piece on a tag removes every occurrence of the tag from
      its text and keeps the rest. */
  lemma SplitPieceText(p: Piece, tag: string)
    requires |tag| > 0
    ensures Texts(SplitPiece(p, tag)) == ReplaceAll(p.text, tag, "")
  {
    TaggedTexts(p.tag, tag, SplitOn(p.text, tag));
    ReplaceAllIsJoinOfSplit(p.text, tag, "");
  }

  /** Each piece with the tag removed from its text. */
  function Stripped(ps: seq<Piece>, tag: string): (r: seq<Piece>)
    requires |tag| > 0
    ensures |r| == |ps|
  {
    seq(|ps|, i requires 0 <= i < |ps| => Piece(ps[i].tag, ReplaceAll(ps[i].text, tag, "")))
  }

  /** One pass removes every occurrence of its tag inside each piece: the
      text it leaves is the texts of the pieces with the tag removed. */
  lemma {:induction false} SplitPiecesText(ps: seq<Piece>, tag: string)
    requires |tag| > 0
    ensures Texts(SplitPieces(ps, tag)) == Texts(Stripped(ps, tag))
    decreases |ps|
  {
    if |ps| > 0 {
      var init := ps[..|ps| - 1];
      SplitPiecesText(init, tag);
      TextsAppend(SplitPieces(init, tag), SplitPiece(ps[|ps| - 1], tag));
      SplitPieceText(ps[|ps| - 1], tag);
      assert Stripped(ps, tag)[..|ps| - 1] == Stripped(init, tag);
    }
  }

  /** With one tag to visit, the text of a fresh `Text` is the input with
      every occurrence of that tag removed. */
  lemma OneTagRemoved(text: string, startColor: string, t: TagName)
    ensures Texts(FreshPieces(text, startColor, [t])) == ReplaceAll(text, Tag(t), "")
  {
    TagsAreMarkers(t);
    var order := [t];
    assert order[..0] == [];
    var ps := [Piece(startColor, text)];
    assert SplitAll(ps, order[..0]) == ps;
    assert FreshPieces(text, startColor, order) == SplitPieces(ps, Tag(t));
    SplitPiecesText(ps, Tag(t));
    assert Stripped(ps, Tag(t)) == [] + [Piece(startColor, ReplaceAll(text, Tag(t), ""))];
  }

  /** A pass keeps the first piece's tag at the front. */
  lemma {:induction false} SplitPiecesFirst(ps: seq<Piece>, tag: string)
    requires |tag| > 0 && |ps| > 0
    ensures |SplitPieces(ps, tag)| > 0 && SplitPieces(ps, tag)[0].tag == ps[0].tag
    decreases |ps|
  {
    if |ps| > 1 {
      SplitPiecesFirst(ps[..|ps| - 1], tag);
    } else {
      assert SplitPieces(ps, tag) == [] + SplitPiece(ps[0], tag);
    }
  }

  /** A pass gives each new piece the tag it split on. */
  lemma {:induction false} SplitPiecesTags(ps: seq<Piece>, tag: string)
    requires |tag| > 0
    ensures forall i :: 0 <= i < |SplitPieces(ps, tag)| ==>
              SplitPieces(ps, tag)[i].tag == tag || SplitPieces(ps, tag)[i].tag in TagsOf(ps)
    decreases |ps|
  {
    if |ps| > 0 {
      var init := ps[..|ps| - 1];
      SplitPiecesTags(init, tag);
      assert TagsOf(ps) == TagsOf(init) + {ps[|ps| - 1].tag};
    }
  }

  /** The tags the pieces carry. */
  function TagsOf(ps: seq<Piece>): set<string>
  {
    set i | 0 <= i < |ps| :: ps[i].tag
  }

  /** The pieces of a fresh `Text` start with the start colour, and every
      piece carries the start colour or one of the tags visited: never
      `;ss;`, `;se;` or `;dw;` unless that is the start colour. */
  lemma {:induction false} FreshPiecesTags(text: string, startColor: string, order: seq<TagName>)
    ensures var ps := FreshPieces(text, startColor, order);
            |ps| > 0 && ps[0].tag == startColor
            && forall i :: 0 <= i < |ps| ==> ps[i].tag == startColor || exists t :: t in order && ps[i].tag == Tag(t)
    decreases |order|
  {
    if |order| > 0 {
      var init := order[..|order| - 1];
      var t := order[|order| - 1];
      FreshPiecesTags(text, startColor, init);
      var ps := FreshPieces(text, startColor, init);
      TagsAreMarkers(t);
      SplitPiecesFirst(ps, Tag(t));
      SplitPiecesTags(ps, Tag(t));
      var qs := FreshPieces(text, startColor, order);
      forall i | 0 <= i < |qs| ensures qs[i].tag == startColor || exists u :: u in order && qs[i].tag == Tag(u) {
        if qs[i].tag != Tag(t) {
          var j :| 0 <= j < |ps| && ps[j].tag == qs[i].tag;
          if ps[j].tag != startColor {
            var u :| u in init && ps[j].tag == Tag(u);
            assert u in order;
          }
        }
      }
    }
  }

  /** With a split order, no piece of a fresh `Text` carries the search or
      white-description tags unless it is the start colour. */
  lemma NeverSplitOnSearchTags(text: string, startColor: string, order: seq<TagName>)
    requires IsSplitOrder(order)
    ensures forall i :: 0 <= i < |FreshPieces(text, startColor, order)| ==>
              var tag := FreshPieces(text, startColor, order)[i].tag;
              tag == startColor || (tag != Tag(Search) && tag != Tag(SearchEnd) && tag != Tag(DescriptionWhite))
  {
    FreshPiecesTags(text, startColor, order);
    var ps := FreshPieces(text, startColor, order);
    forall i | 0 <= i < |ps| && ps[i].tag != startColor
      ensures ps[i].tag != Tag(Search) && ps[i].tag != Tag(SearchEnd) && ps[i].tag != Tag(DescriptionWhite)
    {
      var u :| u in order && ps[i].tag == Tag(u);
      assert Splittable(u);
      if ps[i].tag == Tag(Search) { TagInjective(u, Search); }
      if ps[i].tag == Tag(SearchEnd) { TagInjective(u, SearchEnd); }
      if ps[i].tag == Tag(DescriptionWhite) { TagInjective(u, DescriptionWhite); }
    }
  }

  /** The spans lie end to end from 0 to the length of the text, and each
      span's slice of the text is its piece's text. */
  lemma {:induction false} SpansShowPieces(ps: seq<Piece>)
    ensures ShowsPieces(Spans(ps), Texts(ps), ps)
    ensures |ps| > 0 ==> Tiles(Spans(ps), |Texts(ps)|)
    decreases |ps|
  {
    if |ps| > 0 {
      SpansShowPieces(ps[..|ps| - 1]);
      SpanStep(ps);
    }
  }

  /** One more piece: the earlier spans and slices stay, the new span
      follows the last one. */
  lemma SpanStep(ps: seq<Piece>)
    requires |ps| > 0
    requires ShowsPieces(Spans(ps[..|ps| - 1]), Texts(ps[..|ps| - 1]), ps[..|ps| - 1])
    requires |ps| > 1 ==> Tiles(Spans(ps[..|ps| - 1]), |Texts(ps[..|ps| - 1])|)
    ensures ShowsPieces(Spans(ps), Texts(ps), ps)
    ensures Tiles(Spans(ps), |Texts(ps)|)
  {
    var init, last := ps[..|ps| - 1], ps[|ps| - 1];
    SpanLast(ps);
    assert init + [last] == ps;
    ShowsSnoc(Spans(init), Texts(init), init, Span(last.tag, |Texts(init)|, |Texts(ps)|), last);
    if |init| > 0 {
      assert Spans(ps)[|init| - 1] == Spans(init)[|init| - 1];
    }
  }

  /** A span over text appended at the end shows one more piece. */
  lemma ShowsSnoc(style: seq<Span>, t: string, init: seq<Piece>, s: Span, last: Piece)
    requires |style| == |init| && ShowsPieces(style, t, init)
    requires s.start == |t| && s.end == |t| + |last.text| && s.tag == last.tag
    ensures ShowsPieces(style + [s], t + last.text, init + [last])
  {
    var style', t', ps := style + [s], t + last.text, init + [last];
    forall k | 0 <= k < |ps|
      ensures 0 <= style'[k].start <= style'[k].end <= |t'| && style'[k].tag == ps[k].tag
      ensures t'[style'[k].start..style'[k].end] == ps[k].text
    {
      if k < |init| {
        assert style'[k] == style[k] && ps[k] == init[k];
        assert t'[style[k].start..style[k].end] == t[style[k].start..style[k].end];
      } else {
        assert t'[|t|..|t'|] == last.text;
      }
    }
  }

  /** The text and the spans grow by the last piece. */
  lemma SpanLast(ps: seq<Piece>)
    requires |ps| > 0
    ensures var init, last := ps[..|ps| - 1], ps[|ps| - 1];
            Texts(ps) == Texts(init) + last.text
            && Spans(ps) == Spans(init) + [Span(last.tag, |Texts(init)|, |Texts(ps)|)]
            && Texts(ps)[|Texts(init)|..|Texts(ps)|] == last.text
  {
    var init, last := ps[..|ps| - 1], ps[|ps| - 1];
    assert Texts(ps) == Texts(init) + last.text;
    assert Texts(ps)[|Texts(init)|..|Texts(ps)|] == last.text;
  }

  /** `_from_tag_text`'s style list: end to end from 0 to the length of the
      text, one span per piece colouring exactly that piece's text, then
      the zero-length `;end;` span at the end. */
  lemma LayoutShape(ps: seq<Piece>)
    ensures |Layout(ps)| == |ps| + 1
    ensures Tiles(Layout(ps), |Texts(ps)|)
    ensures ShowsPieces(Layout(ps), Texts(ps), ps)
    ensures Layout(ps)[|ps|] == Span(EndTag, |Texts(ps)|, |Texts(ps)|)
  {
    SpansShowPieces(ps);
  }

  /** A style list that tiles also covers. */
  lemma TilesCovers(style: seq<Span>, n: int)
    requires Tiles(style, n)
    ensures Covers(style, n)
  {
    TilesBounds(style, n);
    forall q | 0 < q <= n ensures CoveredAt(style, q) {
      TilesReach(style, n, q);
    }
  }

  lemma {:induction false} TilesBounds(style: seq<Span>, n: int)
    requires Tiles(style, n)
    ensures forall k :: 0 <= k < |style| ==> 0 <= style[k].start <= style[k].end <= n
    decreases |style|
  {
    if |style| > 1 {
      var init := style[..|style| - 1];
      TilesBounds(init, style[|style| - 2].end);
    }
  }

  lemma {:induction false} TilesReach(style: seq<Span>, n: int, q: int)
    requires Tiles(style, n) && 0 < q <= n
    ensures CoveredAt(style, q)
    decreases |style|
  {
    var last := style[|style| - 1];
    if q <= last.start {
      var init := style[..|style| - 1];
      TilesReach(init, style[|style| - 2].end, q);
      var k :| 0 <= k < |init| && init[k].start < q <= init[k].end;
      assert style[k] == init[k];
    } else {
      assert last.start < q <= last.end;
    }
  }

  /** Without any visited tag in the input, a fresh `Text` is one piece:
      the input under the start colour, then the `;end;` span. */
  lemma {:induction false} NoTagOnePiece(text: string, startColor: string, order: seq<TagName>)
    requires forall t :: t in order ==> !Contains(text, Tag(t))
    ensures FreshPieces(text, startColor, order) == [Piece(startColor, text)]
    ensures Layout(FreshPieces(text, startColor, order))
            == [Span(startColor, 0, |text|), Span(EndTag, |text|, |text|)]
    decreases |order|
  {
    if |order| > 0 {
      var t := order[|order| - 1];
      var init := order[..|order| - 1];
      assert forall u :: u in init ==> u in order;
      NoTagOnePiece(text, startColor, init);
      TagsAreMarkers(t);
      SplitOnSingle(text, Tag(t));
      assert SplitPieces([Piece(startColor, text)], Tag(t)) == [] + SplitPiece(Piece(startColor, text), Tag(t));
    }
    var ps := [Piece(startColor, text)];
    assert ps[..0] == [];
    assert Texts(ps) == text;
  }

  // ---------------------------------------------------------------------
  // insert_text and insert_style, as functions
  // ---------------------------------------------------------------------

  /** Where a Python slice bound `i` lands in a string of length `n`. */
  function PyIndex(n: nat, i: int): (r: nat)
    ensures r <= n
  {
    if i < 0 then (if n + i < 0 then 0 else n + i) else if i > n then n else i
  }

  /** `s[i:j]`. */
  function PySlice(s: string, i: int, j: int): string
  {
    var a, b := PyIndex(|s|, i), PyIndex(|s|, j);
    if a <= b then s[a..b] else ""
  }

  /** `text[:pos] + ins + text[pos:]`. */
  function Inserted(text: string, ins: string, pos: int): string
  {
    var i := PyIndex(|text|, pos);
    text[..i] + ins + text[i..]
  }

  /** How `insert_text` moves one span: a span ending at or after `pos`
      has its end moved by `k`, and its start too when it starts at or
      after `pos`. */
  function Shift(s: Span, pos: int, k: int): Span
  {
    if s.end >= pos then Span(s.tag, if s.start >= pos then s.start + k else s.start, s.end + k)
    else s
  }

  function ShiftAll(style: seq<Span>, pos: int, k: int): (r: seq<Span>)
    ensures |r| == |style|
  {
    seq(|style|, i requires 0 <= i < |style| => Shift(style[i], pos, k))
  }

  /** The span colours the character before the cut at `pos`. */
  predicate Within(s: Span, pos: int)
  {
    s.start < pos <= s.end
  }

  /** The first span with `start < pos <= end`, the one `insert_style` cuts. */
  function FirstCovering(style: seq<Span>, pos: int): (r: Option<nat>)
    ensures r.Some? ==> r.value < |style|
  {
    FirstCoveringFrom(style, pos, 0)
  }

  /** The scan of `insert_style`, from index `i` on. */
  function FirstCoveringFrom(style: seq<Span>, pos: int, i: nat): (r: Option<nat>)
    requires i <= |style|
    ensures r.Some? ==> i <= r.value < |style|
    decreases |style| - i
  {
    if i == |style| then None
    else if Within(style[i], pos) then Some(i)
    else FirstCoveringFrom(style, pos, i + 1)
  }

  /** The scan from `i` finds the first covering span at or after `i`, or
      reports that there is none. */
  lemma {:induction false} FirstCoveringFromIsFirst(style: seq<Span>, pos: int, i: nat)
    requires i <= |style|
    ensures var r := FirstCoveringFrom(style, pos, i);
            (r.Some? ==> i <= r.value < |style| && Within(style[r.value], pos)
                         && forall k {:trigger Within(style[k], pos)} :: i <= k < r.value ==> !Within(style[k], pos))
            && (r.None? ==> forall k {:trigger Within(style[k], pos)} :: i <= k < |style| ==> !Within(style[k], pos))
    decreases |style| - i
  {
    if i < |style| && !Within(style[i], pos) {
      FirstCoveringFromIsFirst(style, pos, i + 1);
    }
  }

  /** `FirstCovering` is `Some(i)` exactly for the first covering span `i`,
      and `None` exactly when no span covers `pos`. */
  lemma FirstCoveringIsFirst(style: seq<Span>, pos: int)
    ensures var r := FirstCovering(style, pos);
            (r.Some? ==> r.value < |style| && Within(style[r.value], pos)
                         && forall k {:trigger Within(style[k], pos)} :: 0 <= k < r.value ==> !Within(style[k], pos))
            && (r.None? ==> forall k {:trigger Within(style[k], pos)} :: 0 <= k < |style| ==> !Within(style[k], pos))
  {
    FirstCoveringFromIsFirst(style, pos, 0);
  }

  /** The style list after `insert_style(tag, pos)`: the first covering
      span cut at `pos` and `[pos, old end)` appended under `tag`; `None`
      when no span covers `pos`, where the source fails on the unbound
      `end_pos`. */
  function AfterInsertStyle(style: seq<Span>, tag: string, pos: int): Option<seq<Span>>
  {
    match FirstCovering(style, pos)
    case None => None
    case Some(i) => Some(style[i := Span(style[i].tag, style[i].start, pos)] + [Span(tag, pos, style[i].end)])
  }

  // ---------------------------------------------------------------------
  // Properties of insert_text and insert_style
  // ---------------------------------------------------------------------

  /** Inserting inside the text keeps the style tiling the longer text. */
  lemma InsertTextKeepsTiles(style: seq<Span>, n: int, pos: int, k: nat)
    requires Tiles(style, n) && 0 < pos <= n
    ensures Tiles(ShiftAll(style, pos, k), n + k)
  {
    TilesBounds(style, n);
    var r := ShiftAll(style, pos, k);
    forall i | 0 <= i < |r| - 1 ensures r[i].end == r[i + 1].start {
      assert style[i].end == style[i + 1].start;
    }
  }

  /** Each span still colours the same characters after `insert_text`; the
      one span with `start < pos <= end` also colours the inserted text. */
  lemma InsertTextKeepsSpanText(text: string, ins: string, pos: int, s: Span)
    requires 0 <= s.start <= s.end <= |text| && 0 <= pos <= |text|
    ensures var t, s' := Inserted(text, ins, pos), Shift(s, pos, |ins|);
            0 <= s'.start <= s'.end <= |t|
            && t[s'.start..s'.end] == if s.start < pos <= s.end then text[s.start..pos] + ins + text[pos..s.end]
                                      else text[s.start..s.end]
  {
    var a, b := text[..pos], text[pos..];
    assert PyIndex(|text|, pos) == pos;
    var t := a + ins + b;
    assert Inserted(text, ins, pos) == t;
    assert |t| == |text| + |ins|;
    if s.end < pos {
      assert Shift(s, pos, |ins|) == s;
      SliceBefore(a, ins, b, s.start, s.end);
      assert a[s.start..s.end] == text[s.start..s.end];
    } else if s.start >= pos {
      assert Shift(s, pos, |ins|) == Span(s.tag, |a| + |ins| + (s.start - pos), |a| + |ins| + (s.end - pos));
      SliceAfter(a, ins, b, s.start - pos, s.end - pos);
      assert b[s.start - pos..s.end - pos] == text[s.start..s.end];
    } else {
      assert Shift(s, pos, |ins|) == Span(s.tag, s.start, |a| + |ins| + (s.end - pos));
      SliceAcross(a, ins, b, s.start, s.end - pos);
      assert a[s.start..] == text[s.start..pos] && b[..s.end - pos] == text[pos..s.end];
    }
  }

  /** A slice of `a + ins + b` that ends before the inserted part. */
  lemma SliceBefore(a: string, ins: string, b: string, i: int, j: int)
    requires 0 <= i <= j <= |a|
    ensures (a + ins + b)[i..j] == a[i..j]
  {
    var t := a + ins + b;
    forall k | 0 <= k < j - i ensures t[i..j][k] == a[i..j][k] {
      assert t[i + k] == a[i + k];
    }
  }

  /** A slice of `a + ins + b` that starts after the inserted part. */
  lemma SliceAfter(a: string, ins: string, b: string, i: int, j: int)
    requires 0 <= i <= j <= |b|
    ensures (a + ins + b)[|a| + |ins| + i..|a| + |ins| + j] == b[i..j]
  {
    var t, n := a + ins + b, |a| + |ins|;
    forall k | 0 <= k < j - i ensures t[n + i..n + j][k] == b[i..j][k] {
      assert t[n + i + k] == b[i + k];
    }
  }

  /** A slice of `a + ins + b` across the inserted part. */
  lemma SliceAcross(a: string, ins: string, b: string, i: int, j: int)
    requires 0 <= i <= |a| && 0 <= j <= |b|
    ensures (a + ins + b)[i..|a| + |ins| + j] == a[i..] + ins + b[..j]
  {
    var t, u := a + ins + b, a[i..] + ins + b[..j];
    forall k | 0 <= k < |u| ensures t[i..|a| + |ins| + j][k] == u[k] {
      if k < |a| - i {
        assert u[k] == a[i + k];
      } else if k < |a| - i + |ins| {
        assert u[k] == ins[k - (|a| - i)];
      } else {
        assert u[k] == b[k - (|a| - i) - |ins|];
      }
    }
  }

  /** On a covering style list, `insert_style` succeeds exactly for
      positions in `(0, n]`, and what it leaves still covers. */
  lemma InsertStyleKeepsCovers(style: seq<Span>, n: int, tag: string, pos: int)
    requires Covers(style, n)
    ensures AfterInsertStyle(style, tag, pos).Some? <==> 0 < pos <= n
    ensures AfterInsertStyle(style, tag, pos).Some? ==> Covers(AfterInsertStyle(style, tag, pos).value, n)
  {
    FirstCoveringIsFirst(style, pos);
    if 0 < pos <= n {
      assert CoveredAt(style, pos);
      var k :| 0 <= k < |style| && style[k].start < pos <= style[k].end;
      assert Within(style[k], pos);
      CutKeepsCovers(style, n, tag, pos, FirstCovering(style, pos).value);
    }
  }

  lemma CutKeepsCovers(style: seq<Span>, n: int, tag: string, pos: int, i: nat)
    requires Covers(style, n) && i < |style| && style[i].start < pos <= style[i].end
    ensures Covers(style[i := Span(style[i].tag, style[i].start, pos)] + [Span(tag, pos, style[i].end)], n)
  {
    var r := style[i := Span(style[i].tag, style[i].start, pos)] + [Span(tag, pos, style[i].end)];
    forall q | 0 < q <= n ensures CoveredAt(r, q) {
      assert CoveredAt(style, q);
      var k :| 0 <= k < |style| && style[k].start < q <= style[k].end;
      if k != i {
        assert r[k] == style[k];
      } else if q <= pos {
        assert r[i].start < q <= r[i].end;
      } else {
        assert r[|style|].start < q <= r[|style|].end;
      }
    }
  }

  /** `insert_style` keeps every other span and the total coloured length:
      the cut span and the new one together are the span that was cut. */
  lemma InsertStyleSplitsSpan(style: seq<Span>, tag: string, pos: int)
    requires AfterInsertStyle(style, tag, pos).Some?
    ensures var r, i := AfterInsertStyle(style, tag, pos).value, FirstCovering(style, pos).value;
            |r| == |style| + 1
            && (forall k :: 0 <= k < |style| && k != i ==> r[k] == style[k])
            && r[i].tag == style[i].tag && r[i].start == style[i].start && r[i].end == pos
            && r[|style|] == Span(tag, pos, style[i].end)
            && r[i].start < r[i].end && r[|style|].start <= r[|style|].end
  {
    FirstCoveringIsFirst(style, pos);
  }

  // ---------------------------------------------------------------------
  // render, as functions
  // ---------------------------------------------------------------------

  /** Python's stable sort on `start_pos`: `x` goes after every span whose
      start is not greater. */
  function InsertByStart(sorted: seq<Span>, x: Span): (r: seq<Span>)
    ensures multiset(r) == multiset(sorted) + multiset{x}
    decreases |sorted|
  {
    if |sorted| == 0 || sorted[|sorted| - 1].start <= x.start then sorted + [x]
    else
      assert sorted == sorted[..|sorted| - 1] + [sorted[|sorted| - 1]];
      InsertByStart(sorted[..|sorted| - 1], x) + [sorted[|sorted| - 1]]
  }

  function SortByStart(style: seq<Span>): (r: seq<Span>)
    ensures multiset(r) == multiset(style)
    decreases |style|
  {
    if |style| == 0 then []
    else
      assert style == style[..|style| - 1] + [style[|style| - 1]];
      InsertByStart(SortByStart(style[..|style| - 1]), style[|style| - 1])
  }

  predicate SortedByStart(s: seq<Span>)
  {
    forall i, j :: 0 <= i < j < |s| ==> s[i].start <= s[j].start
  }

  lemma {:induction false} InsertByStartSorted(sorted: seq<Span>, x: Span)
    requires SortedByStart(sorted)
    ensures SortedByStart(InsertByStart(sorted, x))
    ensures |InsertByStart(sorted, x)| == |sorted| + 1
    ensures |sorted| > 0 ==> InsertByStart(sorted, x)[|sorted|].start >= sorted[|sorted| - 1].start
    decreases |sorted|
  {
    if |sorted| > 0 && sorted[|sorted| - 1].start > x.start {
      var init := sorted[..|sorted| - 1];
      InsertByStartSorted(init, x);
      InsertByStartBound(init, x, sorted[|sorted| - 1].start);
    }
  }

  lemma {:induction false} InsertByStartBound(sorted: seq<Span>, x: Span, b: int)
    requires forall i :: 0 <= i < |sorted| ==> sorted[i].start <= b
    requires x.start <= b
    ensures forall i :: 0 <= i < |InsertByStart(sorted, x)| ==> InsertByStart(sorted, x)[i].start <= b
  {
    var r := InsertByStart(sorted, x);
    forall i | 0 <= i < |r| ensures r[i].start <= b {
      assert r[i] in multiset(r);
      assert r[i] in multiset(sorted) || r[i] == x;
    }
  }

  /** `list.sort` by start: sorted, and a permutation. */
  lemma {:induction false} SortByStartSorted(style: seq<Span>)
    ensures SortedByStart(SortByStart(style)) && multiset(SortByStart(style)) == multiset(style)
    decreases |style|
  {
    if |style| > 0 {
      SortByStartSorted(style[..|style| - 1]);
      InsertByStartSorted(SortByStart(style[..|style| - 1]), style[|style| - 1]);
    }
  }

  /** Sorting a list already in order changes nothing. */
  lemma {:induction false} SortByStartOfSorted(style: seq<Span>)
    requires SortedByStart(style)
    ensures SortByStart(style) == style
    decreases |style|
  {
    if |style| > 0 {
      var n := |style|;
      var init, last := style[..n - 1], style[n - 1];
      assert SortByStart(init) == init by {
        SortedInit(style);
        SortByStartOfSorted(init);
      }
      assert |init| == 0 || init[|init| - 1].start <= last.start by {
        if n > 1 {
          assert init[n - 2] == style[n - 2];
        }
      }
      assert style == init + [last];
      SortedSnoc(init, last);
    }
  }

  /** A span that starts no earlier than the last of a list that sorting
      leaves alone is left at the end. */
  lemma SortedSnoc(init: seq<Span>, last: Span)
    requires SortByStart(init) == init
    requires |init| == 0 || init[|init| - 1].start <= last.start
    ensures SortByStart(init + [last]) == init + [last]
  {
    var s := init + [last];
    assert s[..|s| - 1] == init && s[|s| - 1] == last;
  }

  /** Dropping the last span keeps the order. */
  lemma SortedInit(style: seq<Span>)
    requires |style| > 0 && SortedByStart(style)
    ensures SortedByStart(style[..|style| - 1])
  {
    var init := style[..|style| - 1];
    forall i, j | 0 <= i < j < |init| ensures init[i].start <= init[j].start {
      assert init[i] == style[i] && init[j] == style[j];
    }
  }

  /** The string `render` prints for spans already in order:
      `color[tag] + text[s:e]` for each span; `None` when a tag has no
      colour, where the source raises `KeyError`. */
  function Painted(style: seq<Span>, text: string): Option<string>
    decreases |style|
  {
    if |style| == 0 then Some("")
    else
      var s := style[|style| - 1];
      match Painted(style[..|style| - 1], text)
      case None => None
      case Some(prefix) =>
        match ColorOfTag(s.tag)
        case None => None
        case Some(c) => Some(prefix + c + PySlice(text, s.start, s.end))
  }

  /** The pieces, each behind its colour. */
  function PaintedPieces(ps: seq<Piece>): Option<string>
    decreases |ps|
  {
    if |ps| == 0 then Some("")
    else
      var p := ps[|ps| - 1];
      match PaintedPieces(ps[..|ps| - 1])
      case None => None
      case Some(prefix) =>
        match ColorOfTag(p.tag)
        case None => None
        case Some(c) => Some(prefix + c + p.text)
  }

  /** A fresh layout is already in order, so `render`'s sort keeps it. */
  lemma LayoutSorted(ps: seq<Piece>)
    ensures SortByStart(Layout(ps)) == Layout(ps)
  {
    LayoutShape(ps);
    TilesSorted(Layout(ps), |Texts(ps)|);
    SortByStartOfSorted(Layout(ps));
  }

  /** Rendering a fresh `Text` paints each piece in its tag's colour and
      ends with the `;end;` colour. */
  lemma RenderFresh(ps: seq<Piece>)
    ensures Painted(Layout(ps), Texts(ps)) ==
              match PaintedPieces(ps) case None => None case Some(s) => Some(s + EndCode)
  {
    PaintedAllSpans(ps);
    PaintedEndSpan(Spans(ps), Texts(ps));
  }

  /** Painting the spans of the pieces paints the pieces. */
  lemma PaintedAllSpans(ps: seq<Piece>)
    ensures Painted(Spans(ps), Texts(ps)) == PaintedPieces(ps)
  {
    SpansShowPieces(ps);
    assert Spans(ps)[..|ps|] == Spans(ps) && ps[..|ps|] == ps;
    PaintedSpans(ps, ps, Texts(ps));
  }

  /** The closing `;end;` span adds the end colour and no text. */
  lemma PaintedEndSpan(sp: seq<Span>, text: string)
    ensures Painted(sp + [Span(EndTag, |text|, |text|)], text) ==
              match Painted(sp, text) case None => None case Some(s) => Some(s + EndCode)
  {
    var l := sp + [Span(EndTag, |text|, |text|)];
    assert l[..|l| - 1] == sp;
    ParseRoundTrip(End);
    assert ColorOfTag(EndTag) == Some(EndCode);
    assert PySlice(text, |text|, |text|) == "";
    match Painted(sp, text)
    case None =>
    case Some(prefix) =>
      assert prefix + EndCode + "" == prefix + EndCode;
  }

  lemma TilesSorted(style: seq<Span>, n: int)
    requires Tiles(style, n)
    ensures SortedByStart(style)
  {
    forall i, j | 0 <= i < j < |style| ensures style[i].start <= style[j].start {
      TilesStep(style, n, i, j);
    }
  }

  lemma {:induction false} TilesStep(style: seq<Span>, n: int, i: int, j: int)
    requires Tiles(style, n) && 0 <= i <= j < |style|
    ensures style[i].start <= style[j].start
    decreases j - i
  {
    if i < j {
      TilesStep(style, n, i + 1, j);
    }
  }

  /** Painting the first spans of a layout is painting the pieces they
      show. */
  lemma {:induction false} PaintedSpans(ps: seq<Piece>, all: seq<Piece>, text: string)
    requires |ps| <= |all|
    requires ShowsPieces(Spans(all), text, all)
    requires Spans(all)[..|ps|] == Spans(ps) && all[..|ps|] == ps
    ensures Painted(Spans(ps), text) == PaintedPieces(ps)
    decreases |ps|
  {
    if |ps| > 0 {
      var init := ps[..|ps| - 1];
      assert Spans(all)[..|init|] == Spans(ps)[..|init|] == Spans(init);
      assert all[..|init|] == init;
      PaintedSpans(init, all, text);
      var k := |ps| - 1;
      var s := Spans(all)[k];
      assert Spans(ps)[k] == s && ps[k] == all[k];
      assert Spans(ps)[..k] == Spans(init);
      assert 0 <= s.start <= s.end <= |text| && s.tag == all[k].tag && text[s.start..s.end] == all[k].text;
      PaintedStep(Spans(ps), ps, text);
    }
  }

  /** One more span showing one more piece paints one more piece. */
  lemma PaintedStep(sp: seq<Span>, ps: seq<Piece>, text: string)
    requires |sp| == |ps| > 0
    requires Painted(sp[..|sp| - 1], text) == PaintedPieces(ps[..|ps| - 1])
    requires sp[|sp| - 1].tag == ps[|ps| - 1].tag
    requires PySlice(text, sp[|sp| - 1].start, sp[|sp| - 1].end) == ps[|ps| - 1].text
    ensures Painted(sp, text) == PaintedPieces(ps)
  {
  }

  // ---------------------------------------------------------------------
  // The class
  // ---------------------------------------------------------------------

  /** `Text`: the string and its style list, both updated in place. */
  class Text {
    var text: string
    var style: seq<Span>

    /** `Text(text, start_color)`, with the tag iteration order as a
        parameter. */
    constructor (text0: string, startColor: string, order: seq<TagName>)
      requires IsSplitOrder(order)
      ensures text == Texts(FreshPieces(text0, startColor, order))
      ensures style == Layout(FreshPieces(text0, startColor, order))
      ensures Covers(style, |text|)
    {
      var t, s := FromTagText(text0, startColor, order);
      text, style := t, s;
      LayoutShape(FreshPieces(text0, startColor, order));
      TilesCovers(s, |t|);
    }

    /** `insert_text`: the text grows at `pos` and the spans move. */
    method InsertText(ins: string, pos: int)
      modifies this
      ensures text == Inserted(old(text), ins, pos)
      ensures style == ShiftAll(old(style), pos, |ins|)
    {
      text := text[..PyIndex(|text|, pos)] + ins + text[PyIndex(|text|, pos)..];
      for i := 0 to |style|
        invariant text == Inserted(old(text), ins, pos)
        invariant |style| == |old(style)|
        invariant forall k :: 0 <= k < i ==> style[k] == Shift(old(style)[k], pos, |ins|)
        invariant forall k :: i <= k < |style| ==> style[k] == old(style)[k]
      {
        var s := style[i];
        if s.end >= pos {
          if s.start >= pos {
            s := s.(start := s.start + |ins|);
          }
          s := s.(end := s.end + |ins|);
        }
        style := style[i := s];
      }
    }

    /** `insert_style`: `false` where the source fails on the unbound
        `end_pos`, and then nothing has changed. */
    method InsertStyle(tag: string, pos: int) returns (ok: bool)
      modifies this
      ensures text == old(text)
      ensures ok <==> AfterInsertStyle(old(style), tag, pos).Some?
      ensures ok ==> style == AfterInsertStyle(old(style), tag, pos).value
      ensures !ok ==> style == old(style)
    {
      var endPos: Option<int> := None;
      var i := 0;
      while i < |style|
        invariant 0 <= i <= |style| && style == old(style)
        invariant forall k {:trigger Within(style[k], pos)} :: 0 <= k < i ==> !Within(style[k], pos)
        decreases |style| - i
      {
        if pos > style[i].start && style[i].end >= pos {
          endPos := Some(style[i].end);
          style := style[i := style[i].(end := pos)];
          break;
        }
        i := i + 1;
      }
      FirstCoveringIsFirst(old(style), pos);
      if endPos.None? {
        return false;
      }
      assert Within(old(style)[i], pos);
      assert FirstCovering(old(style), pos) == Some(i);
      style := style + [Span(tag, pos, endPos.value)];
      ok := true;
    }

    /** `render`: the spans are sorted by start in place and the painted
        string is returned; `None` for a tag without a colour. */
    method Render() returns (r: Option<string>)
      modifies this
      ensures text == old(text) && style == SortByStart(old(style))
      ensures r == Painted(style, text)
    {
      var sorted := SortByStart(style);
      style := sorted;
      var out := "";
      for i := 0 to |sorted|
        invariant text == old(text) && style == sorted && Painted(sorted[..i], text) == Some(out)
      {
        PaintedSnoc(sorted, i, text);
        var s := sorted[i];
        var c := ColorOfTag(s.tag);
        if c.None? {
          PaintedNone(sorted, i + 1, text);
          return None;
        }
        out := out + c.value + PySlice(text, s.start, s.end);
      }
      assert sorted[..|sorted|] == sorted;
      r := Some(out);
    }
  }

  /** One more span painted after the ones before it. */
  lemma PaintedSnoc(style: seq<Span>, i: nat, text: string)
    requires i < |style|
    ensures Painted(style[..i + 1], text)
            == match Painted(style[..i], text)
               case None => None
               case Some(prefix) =>
                 match ColorOfTag(style[i].tag)
                 case None => None
                 case Some(c) => Some(prefix + c + PySlice(text, style[i].start, style[i].end))
  {
    assert style[..i + 1][..i] == style[..i];
  }

  /** Once a span has no colour, the whole painting fails. */
  lemma {:induction false} PaintedNone(style: seq<Span>, i: nat, text: string)
    requires 0 < i <= |style| && Painted(style[..i], text).None?
    ensures Painted(style, text).None?
    decreases |style| - i
  {
    if i < |style| {
      assert style[..i + 1][..i] == style[..i];
      PaintedNone(style, i + 1, text);
    } else {
      assert style[..i] == style;
    }
  }

  // ---------------------------------------------------------------------
  // _from_tag_text, as loops
  // ---------------------------------------------------------------------

  /** `_from_tag_text`: the passes over the tags, then the layout loop. */
  method FromTagText(text0: string, startColor: string, order: seq<TagName>)
    returns (text: string, style: seq<Span>)
    ensures text == Texts(FreshPieces(text0, startColor, order))
    ensures style == Layout(FreshPieces(text0, startColor, order))
  {
    var pieces := [Piece(startColor, text0)];
    for j := 0 to |order|
      invariant pieces == SplitAll([Piece(startColor, text0)], order[..j])
    {
      assert order[..j + 1][..j] == order[..j];
      TagsAreMarkers(order[j]);
      pieces := SplitPass(pieces, Tag(order[j]));
    }
    assert order[..|order|] == order;
    text, style := LayOut(pieces);
  }

  /** One pass of the outer loop: each piece split, the lists concatenated. */
  method SplitPass(pieces: seq<Piece>, tag: string) returns (r: seq<Piece>)
    requires |tag| > 0
    ensures r == SplitPieces(pieces, tag)
  {
    r := [];
    for i := 0 to |pieces|
      invariant r == SplitPieces(pieces[..i], tag)
    {
      assert pieces[..i + 1][..i] == pieces[..i];
      var next := SplitOne(pieces[i], tag);
      r := r + next;
    }
    assert pieces[..|pieces|] == pieces;
  }

  /** The inner loop body: an unsplit piece stays whole; otherwise its text
      becomes the first part and each later part follows under `tag`. */
  method SplitOne(t: Piece, tag: string) returns (r: seq<Piece>)
    requires |tag| > 0
    ensures r == SplitPiece(t, tag)
  {
    var parts := SplitOn(t.text, tag);
    SplitOnSingle(t.text, tag);
    if |parts| == 1 {
      r := [t];
    } else {
      r := [Piece(t.tag, parts[0])];
      for k := 1 to |parts|
        invariant r == Tagged(t.tag, tag, parts[..k])
      {
        TaggedSnoc(t.tag, tag, parts, k);
        r := r + [Piece(tag, parts[k])];
      }
      assert parts[..|parts|] == parts;
    }
  }

  /** The layout loop: texts concatenated, spans laid end to end, the
      closing `;end;` span. */
  method LayOut(pieces: seq<Piece>) returns (text: string, style: seq<Span>)
    ensures text == Texts(pieces) && style == Layout(pieces)
  {
    text, style := "", [];
    var count := 0;
    for i := 0 to |pieces|
      invariant text == Texts(pieces[..i]) && style == Spans(pieces[..i]) && count == |text|
    {
      assert pieces[..i + 1][..i] == pieces[..i];
      style := style + [Span(pieces[i].tag, count, count + |pieces[i].text|)];
      text := text + pieces[i].text;
      count := count + |pieces[i].text|;
    }
    assert pieces[..|pieces|] == pieces;
    style := style + [Span(EndTag, count, count)];
  }
}
