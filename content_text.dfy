/** The content transforms of the second Python package
    (`ls_improved-python/lsi_content.py`). Its items carry `Text` objects,
    and the search marks every match in place with two `insert_style`
    calls, `;ss;` where the word starts and `;se;` where it ends; the
    limit on the number of items and `run` are the ones of the first
    package. */
module ContentText {
  import opened Results
  import opened Strings
  import opened ImprovedConfig
  import Text
  import Content

  /** An item of this package: the path and the optional description are
      `Text` objects; `kind` is `item['type']`. */
  datatype Entry = Entry(path: Text.Text, description: Option<Text.Text>, kind: string)

  /** The `Text` objects an item holds. */
  function Objects(e: Entry): set<Text.Text>
  {
    {e.path} + if e.description.Some? then {e.description.value} else {}
  }

  /** The `Text` objects of all the items. */
  function Footprint(items: seq<Entry>): set<Text.Text>
  {
    (set k | 0 <= k < |items| :: items[k].path)
    + (set k | 0 <= k < |items| && items[k].description.Some? :: items[k].description.value)
  }

  /** The item uses different objects for its path and its description,
      and shares no `Text` with the items before it. */
  predicate Apart(e: Entry, before: seq<Entry>)
  {
    (e.description.Some? ==> e.path != e.description.value)
    && forall b :: 0 <= b < |before| ==> Objects(e) !! Objects(before[b])
  }

  /** No two items share a `Text`, and no item uses one object for both its
      path and its description. */
  predicate Separate(items: seq<Entry>)
    decreases |items|
  {
    |items| == 0 || (Separate(items[..|items| - 1]) && Apart(items[|items| - 1], items[..|items| - 1]))
  }

  /** Any two items of a separate list are disjoint. */
  lemma {:induction false} SeparateApart(items: seq<Entry>, a: nat, b: nat)
    requires Separate(items) && a < |items| && b < |items|
    ensures a != b ==> Objects(items[a]) !! Objects(items[b])
    ensures items[a].description.Some? ==> items[a].path != items[a].description.value
    decreases |items|
  {
    var n := |items| - 1;
    var init := items[..n];
    if a < n && b < n {
      assert init[a] == items[a] && init[b] == items[b];
      SeparateApart(init, a, b);
    } else if a == n {
      if b < n {
        assert init[b] == items[b];
      }
    } else {
      assert init[a] == items[a];
      SeparateApart(init, a, a);
    }
  }

  // ---------------------------------------------------------------------
  // The insert_style calls of the highlight loop
  // ---------------------------------------------------------------------

  /** One `insert_style(tag, pos)` call. */
  datatype Mark = Mark(tag: string, pos: int)

  /** The calls the loop over the pieces of `split` makes, with the running
      count starting at `count`: after each piece, `;ss;` at the count and
      `;se;` the length of the word further on. */
  function Marks(parts: seq<string>, wlen: nat, count: int): (r: seq<Mark>)
    ensures |r| == 2 * |parts|
    decreases |parts|
  {
    if |parts| == 0 then []
    else
      var c := count + |parts[0]|;
      [Mark(Tag(Search), c), Mark(Tag(SearchEnd), c + wlen)] + Marks(parts[1..], wlen, c + wlen)
  }

  /** The style after the calls, in order; None as soon as one of them finds
      no span, where `insert_style` raises. */
  function Applied(style: seq<Text.Span>, marks: seq<Mark>): Option<seq<Text.Span>>
    decreases |marks|
  {
    if |marks| == 0 then Some(style)
    else
      match Text.AfterInsertStyle(style, marks[0].tag, marks[0].pos)
      case None => None
      case Some(s) => Applied(s, marks[1..])
  }

  /** On a style that covers the text, the calls all succeed exactly when
      every position is inside the text, and the style still covers it. */
  lemma {:induction false} AppliedIff(style: seq<Text.Span>, n: int, marks: seq<Mark>)
    requires Text.Covers(style, n)
    ensures Applied(style, marks).Some? <==> forall i :: 0 <= i < |marks| ==> 0 < marks[i].pos <= n
    ensures Applied(style, marks).Some? ==> Text.Covers(Applied(style, marks).value, n)
    decreases |marks|
  {
    if |marks| > 0 {
      Text.InsertStyleKeepsCovers(style, n, marks[0].tag, marks[0].pos);
      match Text.AfterInsertStyle(style, marks[0].tag, marks[0].pos)
      case None =>
      case Some(s) =>
        AppliedIff(s, n, marks[1..]);
        assert forall i :: 1 <= i < |marks| ==> marks[i] == marks[1..][i - 1];
    }
  }

  /** The positions the loop asks for: the first is right after the first
      piece, none is before it, and the last is the word's length past the
      end of the joined pieces. */
  lemma {:induction false} MarksRange(parts: seq<string>, w: string, count: int)
    requires |parts| > 0
    ensures var m := Marks(parts, |w|, count);
            m[0].pos == count + |parts[0]|
            && (forall i :: 0 <= i < |m| ==> count + |parts[0]| <= m[i].pos <= count + |Join(parts, w)| + |w|)
            && m[|m| - 1].pos == count + |Join(parts, w)| + |w|
    decreases |parts|
  {
    var m := Marks(parts, |w|, count);
    if |parts| > 1 {
      var c := count + |parts[0]| + |w|;
      MarksRange(parts[1..], w, c);
      var rest := Marks(parts[1..], |w|, c);
      assert m[2..] == rest;
      assert |Join(parts, w)| == |parts[0]| + |w| + |Join(parts[1..], w)|;
      forall i | 2 <= i < |m|
        ensures count + |parts[0]| <= m[i].pos <= count + |Join(parts, w)| + |w|
      {
        assert m[i] == rest[i - 2];
      }
    }
  }

  /** The first piece of `split` is empty exactly when the text starts with
      the word (or is empty). */
  lemma SplitOnFirstEmpty(s: string, w: string)
    requires |w| > 0
    ensures SplitOn(s, w)[0] == "" <==> w <= s || s == ""
  {
  }

  // ---------------------------------------------------------------------
  // The highlight of one Text: as written, and corrected
  // ---------------------------------------------------------------------

  /** The calls of the loop as written: one pair for every piece of
      `lowered.split(w)`, the last piece included. */
  function WrittenMarks(lowered: string, w: string): seq<Mark>
    requires |w| > 0
  {
    Marks(SplitOn(lowered, w), |w|, 0)
  }

  /** The calls the loop evidently intends: one pair for every match, that
      is for every piece but the last. */
  function CorrectedMarks(lowered: string, w: string): seq<Mark>
    requires |w| > 0
  {
    var parts := SplitOn(lowered, w);
    Marks(parts[..|parts| - 1], |w|, 0)
  }

  /** `starts` are the matches a left-to-right scan finds: each is an
      occurrence of the word, each begins at or after the end of the one
      before, and every occurrence of the word begins inside one of them. */
  predicate Leftmost(s: string, w: string, starts: seq<int>)
  {
    (forall i :: 0 <= i < |starts| ==> OccursAt(s, w, starts[i]))
    && (forall i, j :: 0 <= i < j < |starts| ==> starts[i] + |w| <= starts[j])
    && (forall p :: 0 <= p <= |s| && OccursAt(s, w, p) ==> exists i :: 0 <= i < |starts| && starts[i] <= p < starts[i] + |w|)
  }

  /** The calls come in pairs, `;ss;` at `c` plus a start and `;se;` the
      word's length further on. */
  predicate PairedAt(m: seq<Mark>, starts: seq<int>, wlen: nat, c: int)
  {
    |m| == 2 * |starts|
    && forall i :: 0 <= i < |starts| ==>
         m[2 * i] == Mark(Tag(Search), c + starts[i]) && m[2 * i + 1] == Mark(Tag(SearchEnd), c + starts[i] + wlen)
  }


  /** Each position moved `d` further on. */
  function Shifted(xs: seq<int>, d: int): (r: seq<int>)
    ensures |r| == |xs| && forall i :: 0 <= i < |xs| ==> r[i] == xs[i] + d
  {
    seq(|xs|, i requires 0 <= i < |xs| => xs[i] + d)
  }

  /** The calls for the first part are the pair at its end, followed by
      the calls for the other parts. */
  lemma PairedCons(x: string, ps: seq<string>, wlen: nat, c: int, rest: seq<int>)
    requires PairedAt(Marks(ps, wlen, c + |x| + wlen), rest, wlen, c + |x| + wlen)
    ensures PairedAt(Marks([x] + ps, wlen, c), [|x|] + Shifted(rest, |x| + wlen), wlen, c)
  {
    var a := |x|;
    var d := a + wlen;
    var starts := [a] + Shifted(rest, d);
    var m := Marks([x] + ps, wlen, c);
    var m' := Marks(ps, wlen, c + d);
    assert ([x] + ps)[1..] == ps;
    assert m == [Mark(Tag(Search), c + a), Mark(Tag(SearchEnd), c + a + wlen)] + m';
    forall i | 0 < i < |starts|
      ensures m[2 * i] == Mark(Tag(Search), c + starts[i]) && m[2 * i + 1] == Mark(Tag(SearchEnd), c + starts[i] + wlen)
    {
      assert m[2 * i] == m'[2 * (i - 1)] && m[2 * i + 1] == m'[2 * (i - 1) + 1];
    }
  }


  /** Every shifted match is an occurrence in the whole text. */
  lemma ShiftedOccur(s: string, w: string, d: nat, rest: seq<int>)
    requires d <= |s| && forall i :: 0 <= i < |rest| ==> OccursAt(s[d..], w, rest[i])
    ensures forall i :: 0 <= i < |rest| ==> OccursAt(s, w, Shifted(rest, d)[i])
  {
    forall i | 0 <= i < |rest| ensures OccursAt(s, w, Shifted(rest, d)[i]) {
      OccursShift(s, w, d, rest[i]);
    }
  }

  /** An occurrence at or after `d` is covered by a shifted match when the
      matches of the text after `d` cover its occurrences. */
  lemma ShiftedCover(s: string, w: string, d: nat, rest: seq<int>, p: int)
    requires d <= p <= |s| && OccursAt(s, w, p)
    requires forall q :: 0 <= q <= |s| - d && OccursAt(s[d..], w, q) ==> exists i :: 0 <= i < |rest| && rest[i] <= q < rest[i] + |w|
    ensures exists i :: 0 <= i < |rest| && Shifted(rest, d)[i] <= p < Shifted(rest, d)[i] + |w|
  {
    OccursShift(s, w, d, p - d);
    var j :| 0 <= j < |rest| && rest[j] <= p - d < rest[j] + |w|;
    assert Shifted(rest, d)[j] <= p < Shifted(rest, d)[j] + |w|;
  }

  /** The first occurrence, followed by the scan's matches after it, are
      the scan's matches of the whole text. */
  lemma LeftmostCons(s: string, w: string, a: nat, rest: seq<int>, starts: seq<int>)
    requires |w| > 0 && a + |w| <= |s|
    requires OccursAt(s, w, a) && forall p :: 0 <= p < a ==> !OccursAt(s, w, p)
    requires Leftmost(s[a + |w|..], w, rest)
    requires starts == [a] + Shifted(rest, a + |w|)
    ensures Leftmost(s, w, starts)
  {
    ConsOccur(s, w, a, rest, starts);
    ConsApart(s, w, a, rest, starts);
    ConsCover(s, w, a, rest, starts);
  }

  /** The matches found are occurrences. */
  lemma ConsOccur(s: string, w: string, a: nat, rest: seq<int>, starts: seq<int>)
    requires a + |w| <= |s| && OccursAt(s, w, a)
    requires forall i :: 0 <= i < |rest| ==> OccursAt(s[a + |w|..], w, rest[i])
    requires starts == [a] + Shifted(rest, a + |w|)
    ensures forall i :: 0 <= i < |starts| ==> OccursAt(s, w, starts[i])
  {
    var sh := Shifted(rest, a + |w|);
    ShiftedOccur(s, w, a + |w|, rest);
    forall i | 0 < i < |starts| ensures OccursAt(s, w, starts[i]) {
      assert starts[i] == sh[i - 1];
    }
  }

  /** The matches found do not overlap. */
  lemma ConsApart(s: string, w: string, a: nat, rest: seq<int>, starts: seq<int>)
    requires a + |w| <= |s|
    requires forall i :: 0 <= i < |rest| ==> OccursAt(s[a + |w|..], w, rest[i])
    requires forall i, j :: 0 <= i < j < |rest| ==> rest[i] + |w| <= rest[j]
    requires starts == [a] + Shifted(rest, a + |w|)
    ensures forall i, j :: 0 <= i < j < |starts| ==> starts[i] + |w| <= starts[j]
  {
    var sh := Shifted(rest, a + |w|);
    forall i, j | 0 <= i < j < |starts| ensures starts[i] + |w| <= starts[j] {
      assert starts[j] == sh[j - 1];
      assert OccursAt(s[a + |w|..], w, rest[j - 1]);
      if i > 0 {
        assert starts[i] == sh[i - 1];
      }
    }
  }

  /** Every occurrence overlaps a match found. */
  lemma ConsCover(s: string, w: string, a: nat, rest: seq<int>, starts: seq<int>)
    requires a + |w| <= |s| && forall p :: 0 <= p < a ==> !OccursAt(s, w, p)
    requires Leftmost(s[a + |w|..], w, rest)
    requires starts == [a] + Shifted(rest, a + |w|)
    ensures forall p :: 0 <= p <= |s| && OccursAt(s, w, p) ==> exists i :: 0 <= i < |starts| && starts[i] <= p < starts[i] + |w|
  {
    forall p | 0 <= p <= |s| && OccursAt(s, w, p)
      ensures exists i :: 0 <= i < |starts| && starts[i] <= p < starts[i] + |w|
    {
      if p >= a + |w| {
        var i := ConsCoverLater(s, w, a, rest, starts, p);
      } else {
        assert starts[0] <= p < starts[0] + |w|;
      }
    }
  }

  /** An occurrence past the first match is covered by a match of the rest. */
  lemma ConsCoverLater(s: string, w: string, a: nat, rest: seq<int>, starts: seq<int>, p: int) returns (i: nat)
    requires a + |w| <= p <= |s| && OccursAt(s, w, p)
    requires Leftmost(s[a + |w|..], w, rest)
    requires starts == [a] + Shifted(rest, a + |w|)
    ensures i < |starts| && starts[i] <= p < starts[i] + |w|
  {
    var d := a + |w|;
    var sh := Shifted(rest, d);
    ShiftedCover(s, w, d, rest, p);
    var j :| 0 <= j < |rest| && sh[j] <= p < sh[j] + |w|;
    assert starts[j + 1] == sh[j];
    i := j + 1;
  }




  /** The positions a left-to-right scan for `w` matches, found by the
      same scan as `SplitOn`: a match at the front, then the matches after
      it, or the matches after the first character. */
  function MatchStarts(s: string, w: string): (r: seq<int>)
    requires |w| > 0
    ensures |r| == |SplitOn(s, w)| - 1
    decreases |s|
  {
    if w <= s then [0] + Shifted(MatchStarts(s[|w|..], w), |w|)
    else if |s| == 0 then []
    else Shifted(MatchStarts(s[1..], w), 1)
  }

  /** Moving past a first character where the word does not start keeps
      the matches those of the rest, one further on. */
  lemma LeftmostSkip(s: string, w: string, rest: seq<int>)
    requires |w| > 0 && |s| > 0 && !OccursAt(s, w, 0)
    requires Leftmost(s[1..], w, rest)
    ensures Leftmost(s, w, Shifted(rest, 1))
  {
    var sh := Shifted(rest, 1);
    ShiftedOccur(s, w, 1, rest);
    forall p | 0 <= p <= |s| && OccursAt(s, w, p)
      ensures exists i :: 0 <= i < |sh| && sh[i] <= p < sh[i] + |w|
    {
      ShiftedCover(s, w, 1, rest, p);
    }
  }

  /** A match at the front followed by the matches after it. */
  lemma LeftmostFront(s: string, w: string)
    requires |w| > 0 && w <= s
    requires Leftmost(s[|w|..], w, MatchStarts(s[|w|..], w))
    ensures Leftmost(s, w, MatchStarts(s, w))
  {
    var rest := MatchStarts(s[|w|..], w);
    assert MatchStarts(s, w) == [0] + Shifted(rest, |w|);
    LeftmostAtFront(s, w, rest, MatchStarts(s, w));
  }

  /** A match at the very front followed by the leftmost matches of the rest. */
  lemma LeftmostAtFront(s: string, w: string, rest: seq<int>, starts: seq<int>)
    requires |w| > 0 && w <= s
    requires Leftmost(s[|w|..], w, rest)
    requires starts == [0] + Shifted(rest, |w|)
    ensures Leftmost(s, w, starts)
  {
    assert s[0..|w|] == w;
    LeftmostCons(s, w, 0, rest, starts);
  }

  /** No match at the front: the matches after the first character. */
  lemma LeftmostNext(s: string, w: string)
    requires |w| > 0 && !(w <= s) && |s| > 0
    requires Leftmost(s[1..], w, MatchStarts(s[1..], w))
    ensures Leftmost(s, w, MatchStarts(s, w))
  {
    assert !OccursAt(s, w, 0) by {
      if |w| <= |s| { assert s[0..|w|] == s[..|w|]; }
    }
    LeftmostSkip(s, w, MatchStarts(s[1..], w));
  }

  /** The scan's positions are the matches of the scan: occurrences, not
      overlapping, and covering every occurrence. */
  lemma {:induction false} MatchStartsLeftmost(s: string, w: string)
    requires |w| > 0
    ensures Leftmost(s, w, MatchStarts(s, w))
    decreases |s|
  {
    if w <= s {
      MatchStartsLeftmost(s[|w|..], w);
      LeftmostFront(s, w);
    } else if |s| > 0 {
      MatchStartsLeftmost(s[1..], w);
      LeftmostNext(s, w);
    }
  }


  /** A first piece one character longer moves every call one further on. */
  lemma MarksLongerHead(x: char, p: string, ps: seq<string>, wlen: nat, c: int)
    ensures Marks([[x] + p] + ps, wlen, c) == Marks([p] + ps, wlen, c + 1)
  {
    assert ([[x] + p] + ps)[1..] == ps;
    assert ([p] + ps)[1..] == ps;
  }


  /** The calls for all pieces but the last, shifted by `c`, when the
      word starts the text. */
  lemma PairedFront(s: string, w: string, c: int)
    requires |w| > 0 && w <= s
    requires var parts := SplitOn(s[|w|..], w);
             PairedAt(Marks(parts[..|parts| - 1], |w|, c + |w|), MatchStarts(s[|w|..], w), |w|, c + |w|)
    ensures var parts := SplitOn(s, w);
            PairedAt(Marks(parts[..|parts| - 1], |w|, c), MatchStarts(s, w), |w|, c)
  {
    var parts := SplitOn(s, w);
    var parts' := SplitOn(s[|w|..], w);
    var tail := parts'[..|parts'| - 1];
    var rest := MatchStarts(s[|w|..], w);
    assert parts[..|parts| - 1] == [""] + tail;
    assert MatchStarts(s, w) == [0] + Shifted(rest, |w|);
    PairedAtFront(tail, rest, |w|, c);
  }

  /** An empty first piece puts a pair of calls at the front. */
  lemma PairedAtFront(tail: seq<string>, rest: seq<int>, wlen: nat, c: int)
    requires PairedAt(Marks(tail, wlen, c + wlen), rest, wlen, c + wlen)
    ensures PairedAt(Marks([""] + tail, wlen, c), [0] + Shifted(rest, wlen), wlen, c)
  {
    PairedCons("", tail, wlen, c, rest);
  }


  /** The calls for all pieces but the last, shifted by `c`, when the
      word does not start the text. */
  lemma PairedNext(s: string, w: string, c: int)
    requires |w| > 0 && !(w <= s) && |s| > 0
    requires var parts := SplitOn(s[1..], w);
             PairedAt(Marks(parts[..|parts| - 1], |w|, c + 1), MatchStarts(s[1..], w), |w|, c + 1)
    ensures var parts := SplitOn(s, w);
            PairedAt(Marks(parts[..|parts| - 1], |w|, c), MatchStarts(s, w), |w|, c)
  {
    var r := SplitOn(s[1..], w);
    MarksSkip(s, w, c);
    assert MatchStarts(s, w) == Shifted(MatchStarts(s[1..], w), 1);
    PairedShift(Marks(r[..|r| - 1], |w|, c + 1), MatchStarts(s[1..], w), |w|, c);
  }

  /** Where the word does not start, the first character only moves the
      calls one further on. */
  lemma MarksSkip(s: string, w: string, c: int)
    requires |w| > 0 && !(w <= s) && |s| > 0
    ensures var parts := SplitOn(s, w);
            var r := SplitOn(s[1..], w);
            |parts| == |r| && Marks(parts[..|parts| - 1], |w|, c) == Marks(r[..|r| - 1], |w|, c + 1)
  {
    var parts := SplitOn(s, w);
    var r := SplitOn(s[1..], w);
    var n := |r| - 1;
    if n == 0 {
      assert parts[..n] == [] && r[..n] == [];
    } else {
      assert parts[..n] == [[s[0]] + r[0]] + r[1..n];
      assert r[..n] == [r[0]] + r[1..n];
      MarksLongerHead(s[0], r[0], r[1..n], |w|, c);
    }
  }

  /** Calls paired at positions shifted by `c + 1` are paired at the
      positions one further on shifted by `c`. */
  lemma PairedShift(m: seq<Mark>, starts: seq<int>, wlen: nat, c: int)
    requires PairedAt(m, starts, wlen, c + 1)
    ensures PairedAt(m, Shifted(starts, 1), wlen, c)
  {
  }


  /** The calls for all pieces but the last, shifted by `c`, are one pair
      at each of the scan's positions. */
  lemma {:induction false} MatchStartsPaired(s: string, w: string, c: int)
    requires |w| > 0
    ensures var parts := SplitOn(s, w);
            PairedAt(Marks(parts[..|parts| - 1], |w|, c), MatchStarts(s, w), |w|, c)
    decreases |s|
  {
    if w <= s {
      MatchStartsPaired(s[|w|..], w, c + |w|);
      PairedFront(s, w, c);
    } else if |s| > 0 {
      MatchStartsPaired(s[1..], w, c + 1);
      PairedNext(s, w, c);
    } else {
      var parts := SplitOn(s, w);
      assert parts[..|parts| - 1] == [];
    }
  }


  /** The corrected calls are one `;ss;`/`;se;` pair around each match,
      and the matches are exactly those a left-to-right scan of the lowered
      text finds: occurrences, not overlapping, and covering every
      occurrence. */
  lemma CorrectedMarksAtMatches(lowered: string, w: string)
    requires |w| > 0
    ensures var m := CorrectedMarks(lowered, w);
            PairedAt(m, MatchStarts(lowered, w), |w|, 0) && Leftmost(lowered, w, MatchStarts(lowered, w))
  {
    MatchStartsPaired(lowered, w, 0);
    MatchStartsLeftmost(lowered, w);
  }


  /** As written, the pair after the last piece asks for `;se;` past the end
      of the text, where no span ends, so `insert_style` raises on every
      text the loop is run on. */
  lemma WrittenMarksFail(style: seq<Text.Span>, text: string, w: string)
    requires |w| > 0 && Text.Covers(style, |text|)
    ensures Applied(style, WrittenMarks(Lower(text), w)) == None
  {
    var parts := SplitOn(Lower(text), w);
    var m := Marks(parts, |w|, 0);
    SplitJoin(Lower(text), w);
    MarksRange(parts, w, 0);
    AppliedIff(style, |text|, m);
    assert !(m[|m| - 1].pos <= |text|);
  }

  /** The one text the failure is shown on: `"abc"` searched for `"b"`,
      styled as the `Text` constructor styles a text without tags. */
  lemma WrittenMarksFailExample()
    ensures WrittenMarks("abc", "b") == [Mark(Tag(Search), 1), Mark(Tag(SearchEnd), 2),
                                         Mark(Tag(Search), 3), Mark(Tag(SearchEnd), 4)]
    ensures Applied([Text.Span(Tag(Description), 0, 3), Text.Span(Text.EndTag, 3, 3)], WrittenMarks("abc", "b")) == None
  {
    SplitExample();
    var parts := ["a", "c"];
    assert parts[1..] == ["c"] && parts[1..][1..] == [];
    assert Marks(parts, 1, 0) == [Mark(Tag(Search), 1), Mark(Tag(SearchEnd), 2)] + Marks(["c"], 1, 2);
    assert Marks(["c"], 1, 2) == [Mark(Tag(Search), 3), Mark(Tag(SearchEnd), 4)] + Marks([], 1, 4);
    var style := [Text.Span(Tag(Description), 0, 3), Text.Span(Text.EndTag, 3, 3)];
    assert Text.Covers(style, 3) by {
      forall q | 0 < q <= 3 ensures Text.CoveredAt(style, q) {
        assert style[0].start < q <= style[0].end;
      }
    }
    WrittenMarksFail(style, "abc", "b");
    assert Lower("abc") == "abc";
  }

  /** `"abc".split("b")` is `["a", "c"]`. */
  lemma SplitExample()
    ensures SplitOn("abc", "b") == ["a", "c"]
  {
    assert SplitOn("", "b") == [""];
    assert "c"[0] == 'c' && "c"[1..] == "" && !("b" <= "c");
    assert SplitOn("c", "b") == [['c'] + SplitOn("", "b")[0]] + SplitOn("", "b")[1..];
    assert "bc"[..1] == "b" && "bc"[1..] == "c";
    assert SplitOn("bc", "b") == [""] + SplitOn("c", "b");
    assert "abc"[0] == 'a' && "abc"[1..] == "bc" && !("b" <= "abc");
    assert ['c'] + "" == "c" && [""][1..] == [];
    assert SplitOn("c", "b") == ["c"];
    assert SplitOn("bc", "b") == ["", "c"];
    assert ['a'] + "" == "a";
    assert SplitOn("abc", "b") == [['a'] + SplitOn("bc", "b")[0]] + SplitOn("bc", "b")[1..];
  }

  /** Corrected, the calls succeed exactly when the text does not start with
      the word: a match at offset 0 asks for `;ss;` at position 0, which no
      span's `start < pos` admits. */
  lemma CorrectedMarksIff(style: seq<Text.Span>, text: string, w: string)
    requires |w| > 0 && Text.Covers(style, |text|)
    ensures Applied(style, CorrectedMarks(Lower(text), w)).Some? <==> !(w <= Lower(text))
    ensures Applied(style, CorrectedMarks(Lower(text), w)).Some? ==>
              Text.Covers(Applied(style, CorrectedMarks(Lower(text), w)).value, |text|)
  {
    var lowered := Lower(text);
    var parts := SplitOn(lowered, w);
    var k := |parts| - 1;
    var m := Marks(parts[..k], |w|, 0);
    AppliedIff(style, |text|, m);
    SplitOnFirstEmpty(lowered, w);
    if k == 0 {
      assert !(w <= lowered);
    } else {
      var init := parts[..k];
      MarksRange(init, w, 0);
      assert init + [parts[k]] == parts;
      JoinSnoc(init, parts[k], w);
      SplitJoin(lowered, w);
      assert lowered != "";
      assert init[0] == parts[0];
      assert m[0].pos == |parts[0]|;
    }
  }

  /** The lines 59-64 (and 67-72) on one `Text`: for each piece of the split
      text the running count moves past the piece, `;ss;` is inserted there
      and `;se;` the length of the word further on; false when a call
      raises. */
  method InsertMarks(t: Text.Text, parts: seq<string>, wlen: nat) returns (ok: bool)
    modifies t
    ensures t.text == old(t.text)
    ensures ok <==> Highlighting(old(t.style), parts, wlen, 0).Some?
    ensures ok ==> Some(t.style) == Highlighting(old(t.style), parts, wlen, 0)
  {
    ghost var target := Highlighting(t.style, parts, wlen, 0);
    var count := 0;
    var j := 0;
    while j < |parts|
      invariant 0 <= j <= |parts|
      invariant t.text == old(t.text)
      invariant target == Highlighting(t.style, parts[j..], wlen, count)
      decreases |parts| - j
    {
      ok := InsertPair(t, parts, j, wlen, count, target);
      if !ok {
        return;
      }
      count := count + |parts[j]| + wlen;
      j := j + 1;
    }
    assert parts[j..] == [];
    ok := true;
  }

  /** One turn of that loop, on the piece `parts[j]`. */
  method InsertPair(t: Text.Text, parts: seq<string>, j: nat, wlen: nat, count: int,
                    ghost target: Option<seq<Text.Span>>) returns (ok: bool)
    requires j < |parts| && target == Highlighting(t.style, parts[j..], wlen, count)
    modifies t
    ensures t.text == old(t.text)
    ensures !ok ==> target == None
    ensures ok ==> target == Highlighting(t.style, parts[j + 1..], wlen, count + |parts[j]| + wlen)
  {
    ghost var s0 := t.style;
    HighlightingStep(s0, parts, j, wlen, count);
    var c := count + |parts[j]|;
    ok := t.InsertStyle(Tag(Search), c);
    if ok {
      ok := t.InsertStyle(Tag(SearchEnd), c + wlen);
      if ok {
        assert AfterPair(s0, c, wlen) == Some(t.style);
      } else {
        assert AfterPair(s0, c, wlen) == None;
      }
    } else {
      assert AfterPair(s0, c, wlen) == None;
    }
  }

  /** The style after the two calls of one turn of that loop: `;ss;` at `c`,
      then `;se;` at `c + wlen`. */
  function AfterPair(style: seq<Text.Span>, c: int, wlen: nat): Option<seq<Text.Span>>
  {
    match Text.AfterInsertStyle(style, Tag(Search), c)
    case None => None
    case Some(s) => Text.AfterInsertStyle(s, Tag(SearchEnd), c + wlen)
  }

  /** The loop, turn by turn. */
  function Highlighting(style: seq<Text.Span>, parts: seq<string>, wlen: nat, count: int): Option<seq<Text.Span>>
    decreases |parts|
  {
    if |parts| == 0 then Some(style)
    else
      match AfterPair(style, count + |parts[0]|, wlen)
      case None => None
      case Some(s) => Highlighting(s, parts[1..], wlen, count + |parts[0]| + wlen)
  }

  lemma HighlightingStep(style: seq<Text.Span>, parts: seq<string>, j: nat, wlen: nat, count: int)
    requires j < |parts|
    ensures Highlighting(style, parts[j..], wlen, count)
            == match AfterPair(style, count + |parts[j]|, wlen)
               case None => None
               case Some(s) => Highlighting(s, parts[j + 1..], wlen, count + |parts[j]| + wlen)
  {
    assert parts[j..][0] == parts[j] && parts[j..][1..] == parts[j + 1..];
  }

  /** Turn by turn, the loop makes the calls `Marks` lists. */
  lemma {:induction false} HighlightingApplied(style: seq<Text.Span>, parts: seq<string>, wlen: nat, count: int)
    ensures Highlighting(style, parts, wlen, count) == Applied(style, Marks(parts, wlen, count))
    decreases |parts|, 1
  {
    if |parts| > 0 {
      HighlightingAppliedStep(style, parts, wlen, count);
    }
  }

  /** One turn of `HighlightingApplied`. */
  lemma {:induction false} HighlightingAppliedStep(style: seq<Text.Span>, parts: seq<string>, wlen: nat, count: int)
    requires |parts| > 0
    ensures Highlighting(style, parts, wlen, count) == Applied(style, Marks(parts, wlen, count))
    decreases |parts|, 0
  {
    var c := count + |parts[0]|;
    var rest := Marks(parts[1..], wlen, c + wlen);
    assert Marks(parts, wlen, count) == [Mark(Tag(Search), c), Mark(Tag(SearchEnd), c + wlen)] + rest;
    AppliedPair(style, c, wlen, rest);
    match AfterPair(style, c, wlen)
    case None =>
    case Some(s) =>
      assert Highlighting(style, parts, wlen, count) == Highlighting(s, parts[1..], wlen, c + wlen);
      HighlightingApplied(s, parts[1..], wlen, c + wlen);
  }

  /** The two calls of a turn, then the rest. */
  lemma AppliedPair(style: seq<Text.Span>, c: int, wlen: nat, rest: seq<Mark>)
    ensures Applied(style, [Mark(Tag(Search), c), Mark(Tag(SearchEnd), c + wlen)] + rest)
            == match AfterPair(style, c, wlen)
               case None => None
               case Some(s) => Applied(s, rest)
  {
    var ms := [Mark(Tag(Search), c), Mark(Tag(SearchEnd), c + wlen)] + rest;
    assert ms[1..] == [Mark(Tag(SearchEnd), c + wlen)] + rest;
    var first := Text.AfterInsertStyle(style, Tag(Search), c);
    if first.Some? {
      AppliedCons(first.value, Mark(Tag(SearchEnd), c + wlen), rest);
    }
  }

  lemma AppliedCons(style: seq<Text.Span>, m: Mark, rest: seq<Mark>)
    ensures Applied(style, [m] + rest)
            == match Text.AfterInsertStyle(style, m.tag, m.pos)
               case None => None
               case Some(s) => Applied(s, rest)
  {
    assert ([m] + rest)[1..] == rest;
  }

  /** The highlight of one `Text` as written: it always raises. */
  method HighlightAsWritten(t: Text.Text, w: string) returns (ok: bool)
    requires |w| > 0 && Text.Covers(t.style, |t.text|)
    modifies t
    ensures t.text == old(t.text)
    ensures !ok
  {
    WrittenMarksFail(t.style, t.text, w);
    HighlightingApplied(t.style, SplitOn(Lower(t.text), w), |w|, 0);
    ok := InsertMarks(t, SplitOn(Lower(t.text), w), |w|);
  }

  /** The highlight of one `Text`, one pair of calls per match, as the
      search uses it: it succeeds unless the text starts with the word, and
      then leaves the style covering the text. */
  method Highlight(t: Text.Text, w: string) returns (ok: bool)
    requires |w| > 0 && Text.Covers(t.style, |t.text|)
    modifies t
    ensures t.text == old(t.text)
    ensures ok <==> !(w <= Lower(old(t.text)))
    ensures ok ==> Some(t.style) == Applied(old(t.style), CorrectedMarks(Lower(old(t.text)), w))
    ensures ok ==> Text.Covers(t.style, |t.text|)
  {
    CorrectedMarksIff(t.style, t.text, w);
    var parts := SplitOn(Lower(t.text), w);
    HighlightingApplied(t.style, parts[..|parts| - 1], |w|, 0);
    ok := InsertMarks(t, parts[..|parts| - 1], |w|);
  }

  // ---------------------------------------------------------------------
  // _search
  // ---------------------------------------------------------------------

  /** The style `_search` leaves on one `Text`: unchanged when the lowered
      text does not contain the lowered word, the highlighted one when it
      does; None when highlighting raises (on an empty word, `split`
      raises). */
  function Highlighted(style: seq<Text.Span>, text: string, w: string): Option<seq<Text.Span>>
  {
    if !Contains(Lower(text), w) then Some(style)
    else if w == "" then None
    else Applied(style, CorrectedMarks(Lower(text), w))
  }

  /** Highlighting one `Text` fails exactly when its lowered text starts with
      the word; the empty word is a prefix of every text. */
  lemma HighlightedIff(style: seq<Text.Span>, text: string, w: string)
    requires Text.Covers(style, |text|)
    ensures Highlighted(style, text, w).Some? <==> !(w <= Lower(text))
    ensures Highlighted(style, text, w).Some? ==> Text.Covers(Highlighted(style, text, w).value, |text|)
  {
    if w != "" && Contains(Lower(text), w) {
      CorrectedMarksIff(style, text, w);
    }
  }

  // ---------------------------------------------------------------------
  // The items as values
  // ---------------------------------------------------------------------

  /** The fields of one `Text`. */
  datatype TextState = TextState(text: string, style: seq<Text.Span>)

  /** The fields of the `Text` objects of one item. */
  datatype EntryState = EntryState(path: TextState, description: Option<TextState>)

  function StateOf(e: Entry): EntryState
    reads Objects(e)
  {
    EntryState(TextState(e.path.text, e.path.style),
               if e.description.Some? then Some(TextState(e.description.value.text, e.description.value.style)) else None)
  }

  /** The states of all the items, in order. */
  function States(items: seq<Entry>): (r: seq<EntryState>)
    reads Footprint(items)
    ensures |r| == |items|
  {
    seq(|items|, k requires 0 <= k < |items| reads Footprint(items) => StateOf(items[k]))
  }

  /** The style of every `Text` covers its text, as the `Text` constructor
      leaves it. */
  predicate Fits(s: EntryState)
  {
    Text.Covers(s.path.style, |s.path.text|)
    && (s.description.Some? ==> Text.Covers(s.description.value.style, |s.description.value.text|))
  }

  predicate AllFit(states: seq<EntryState>)
  {
    forall k :: 0 <= k < |states| ==> Fits(states[k])
  }

  /** Neither text of the item, lowered, starts with the word: the condition
      under which highlighting the item cannot raise. */
  predicate Clear(s: EntryState, w: string)
  {
    !(w <= Lower(s.path.text))
    && (s.description.Some? ==> !(w <= Lower(s.description.value.text)))
  }

  // ---------------------------------------------------------------------
  // The search loop
  // ---------------------------------------------------------------------

  /** `search_word in path or search_word in description`. */
  predicate Hit(s: EntryState, w: string)
  {
    Contains(Lower(s.path.text), w)
    || (s.description.Some? && Contains(Lower(s.description.value.text), w))
  }

  /** The match flags of the items. */
  function Hits(states: seq<EntryState>, w: string): (r: seq<bool>)
    ensures |r| == |states|
    decreases |states|
  {
    if |states| == 0 then []
    else Hits(states[..|states| - 1], w) + [Hit(states[|states| - 1], w)]
  }

  /** Flag `k` is whether item `k` matches. */
  lemma {:induction false} HitsAt(states: seq<EntryState>, w: string, k: nat)
    requires k < |states|
    ensures Hits(states, w)[k] == Hit(states[k], w)
    decreases |states|
  {
    var n := |states| - 1;
    if k < n {
      assert states[..n][k] == states[k];
      HitsAt(states[..n], w, k);
    }
  }

  /** One `Text` after `_search`. */
  function HighlightState(s: TextState, w: string): Option<TextState>
  {
    match Highlighted(s.style, s.text, w)
    case None => None
    case Some(style) => Some(TextState(s.text, style))
  }

  /** One item after the body of the item loop, lines 48-72: its path, then
      its description; None when one of them raises. */
  function Visited(s: EntryState, w: string): Option<EntryState>
  {
    match HighlightState(s.path, w)
    case None => None
    case Some(p) =>
      if s.description.None? then Some(EntryState(p, None))
      else
        match HighlightState(s.description.value, w)
        case None => None
        case Some(d) => Some(EntryState(p, Some(d)))
  }

  /** All the items after the item loop; None as soon as one raises. */
  function Searched(states: seq<EntryState>, w: string): Option<seq<EntryState>>
    decreases |states|
  {
    if |states| == 0 then Some([])
    else
      match Searched(states[..|states| - 1], w)
      case None => None
      case Some(r) =>
        match Visited(states[|states| - 1], w)
        case None => None
        case Some(x) => Some(r + [x])
  }

  /** An item whose styles fit can be visited exactly when it is clear of
      the word; the texts stay and the new styles still fit. */
  lemma VisitedIff(s: EntryState, w: string)
    requires Fits(s)
    ensures Visited(s, w).Some? <==> Clear(s, w)
    ensures Visited(s, w).Some? ==>
              var r := Visited(s, w).value;
              Fits(r) && r.path.text == s.path.text
              && r.description.Some? == s.description.Some?
              && (r.description.Some? ==> r.description.value.text == s.description.value.text)
  {
    HighlightedIff(s.path.style, s.path.text, w);
    if s.description.Some? {
      HighlightedIff(s.description.value.style, s.description.value.text, w);
    }
  }

  /** The search succeeds exactly when every item is clear of the word; it
      then keeps the number of items and their texts. */
  lemma {:induction false} SearchedIff(states: seq<EntryState>, w: string)
    requires AllFit(states)
    ensures Searched(states, w).Some? <==> forall k :: 0 <= k < |states| ==> Clear(states[k], w)
    ensures Searched(states, w).Some? ==>
              var r := Searched(states, w).value;
              |r| == |states| && AllFit(r)
              && forall k :: 0 <= k < |r| ==> Some(r[k]) == Visited(states[k], w)
    decreases |states|
  {
    if |states| > 0 {
      var n := |states| - 1;
      var init := states[..n];
      assert AllFit(init) by {
        forall k | 0 <= k < n ensures Fits(init[k]) {
          assert init[k] == states[k];
        }
      }
      SearchedIff(init, w);
      VisitedIff(states[n], w);
      if Searched(states, w).Some? {
        var r := Searched(states, w).value;
        var r0 := Searched(init, w).value;
        assert r == r0 + [Visited(states[n], w).value];
        forall k | 0 <= k < |states| ensures Clear(states[k], w) && Some(r[k]) == Visited(states[k], w) && Fits(r[k]) {
          if k < n {
            assert init[k] == states[k] && r[k] == r0[k];
          }
        }
      }
    }
  }

  /** `item['type']`. */
  function KindOf(e: Entry): string
  {
    e.kind
  }

  /** The body of the item loop: whether the item matches and, when it does,
      each of its `Text` objects that contains the word highlighted. */
  method Visit(e: Entry, w: string) returns (ok: bool, kept: bool)
    requires e.description.Some? ==> e.path != e.description.value
    requires Fits(StateOf(e))
    modifies Objects(e)
    ensures kept == Hit(old(StateOf(e)), w)
    ensures ok <==> Visited(old(StateOf(e)), w).Some?
    ensures ok ==> Some(StateOf(e)) == Visited(old(StateOf(e)), w)
  {
    var matchPath := Contains(Lower(e.path.text), w);
    var matchDesc := e.description.Some? && Contains(Lower(e.description.value.text), w);
    kept := matchPath || matchDesc;
    ok := true;
    HighlightedIff(e.path.style, e.path.text, w);
    if e.description.Some? {
      HighlightedIff(e.description.value.style, e.description.value.text, w);
    }
    if matchPath {
      if w == "" {
        return false, kept;
      }
      ok := Highlight(e.path, w);
      if !ok {
        return;
      }
    }
    if matchDesc {
      if w == "" {
        return false, kept;
      }
      ok := Highlight(e.description.value, w);
    }
  }

  /** Once a prefix of the items raises, the whole search does. */
  lemma {:induction false} SearchedNone(states: seq<EntryState>, i: nat, w: string)
    requires i <= |states| && Searched(states[..i], w).None?
    ensures Searched(states, w).None?
    decreases |states| - i
  {
    if i < |states| {
      var n := |states| - 1;
      assert states[..n][..i] == states[..i];
      SearchedNone(states[..n], i, w);
    } else {
      assert states[..i] == states;
    }
  }

  /** The search over one more item. */
  lemma SearchedStep(states: seq<EntryState>, i: nat, done: seq<EntryState>, w: string)
    requires i < |states| && Searched(states[..i], w) == Some(done)
    ensures Searched(states[..i + 1], w)
            == match Visited(states[i], w)
               case None => None
               case Some(x) => Some(done + [x])
  {
    assert states[..i + 1][..i] == states[..i] && states[..i + 1][i] == states[i];
  }

  /** `Visit` on the item at index `i`, where the items before it are
      `done` and the rest are as they were, `before`: afterwards the item's
      state is the visited one and the other items are left alone. */
  method VisitAt(all: seq<Entry>, i: nat, w: string, ghost done: seq<EntryState>, ghost before: seq<EntryState>)
      returns (ok: bool, kept: bool)
    requires i < |all| && |done| == i && |before| == |all| && Separate(all) && AllFit(before)
    requires States(all) == done + before[i..]
    modifies Objects(all[i])
    ensures kept == Hit(before[i], w)
    ensures ok <==> Visited(before[i], w).Some?
    ensures ok ==> States(all) == done + [Visited(before[i], w).value] + before[i + 1..]
  {
    assert StateOf(all[i]) == before[i] by {
      assert States(all)[i] == (done + before[i..])[i];
    }
    SeparateApart(all, i, i);
    ok, kept := Visit(all[i], w);
    if ok {
      forall k | 0 <= k < |all|
        ensures States(all)[k] == (done + [Visited(before[i], w).value] + before[i + 1..])[k]
      {
        if k != i {
          SeparateApart(all, k, i);
          assert all[k].path !in Objects(all[i]);
          assert all[k].description.Some? ==> all[k].description.value !in Objects(all[i]);
          assert StateOf(all[k]) == old(StateOf(all[k]));
          assert old(States(all))[k] == (done + before[i..])[k];
        }
      }
    }
  }

  lemma ObjectsInFootprint(items: seq<Entry>, i: nat)
    requires i < |items|
    ensures Objects(items[i]) <= Footprint(items)
  {
  }

  lemma Whole<T>(s: seq<T>)
    ensures s[..|s|] == s
  {
  }

  /** One turn of the item loop: visit item `i` and add it to the
      directories or the files when it matches. */
  method SearchStep(all: seq<Entry>, i: nat, w: string, ghost before: seq<EntryState>, ghost flags: seq<bool>,
                    ghost done: seq<EntryState>, dirs: seq<Entry>, files: seq<Entry>)
      returns (ok: bool, ghost done': seq<EntryState>, dirs': seq<Entry>, files': seq<Entry>)
    requires i < |all| && |done| == i && |before| == |all| && flags == Hits(before, w)
    requires Separate(all) && AllFit(before)
    requires Searched(before[..i], w) == Some(done) && States(all) == done + before[i..]
    requires dirs == Content.Pick(all[..i], flags[..i], KindOf, "Dir") && files == Content.Pick(all[..i], flags[..i], KindOf, "File")
    modifies Objects(all[i])
    ensures !ok ==> Searched(before, w).None?
    ensures ok ==> Searched(before[..i + 1], w) == Some(done') && |done'| == i + 1
                   && States(all) == done' + before[i + 1..]
    ensures ok ==> dirs' == Content.Pick(all[..i + 1], flags[..i + 1], KindOf, "Dir")
                   && files' == Content.Pick(all[..i + 1], flags[..i + 1], KindOf, "File")
  {
    done', dirs', files' := done, dirs, files;
    var kept;
    ok, kept := VisitAt(all, i, w, done, before);
    SearchedStep(before, i, done, w);
    if !ok {
      SearchedNone(before, i + 1, w);
      return;
    }
    HitsAt(before, w, i);
    Content.PickStep(all, flags, KindOf, i, "Dir");
    Content.PickStep(all, flags, KindOf, i, "File");
    done' := done + [Visited(before[i], w).value];
    if kept {
      if all[i].kind == "Dir" {
        dirs' := dirs + [all[i]];
      } else if all[i].kind == "File" {
        files' := files + [all[i]];
      }
    }
  }

  /** The item loop of `_search` over all the items, directories first:
      the matching directories and files, in order, with the `Text` objects
      as `Searched` leaves them; false when a highlight raises. */
  method SearchItems(all: seq<Entry>, w: string) returns (ok: bool, dirs: seq<Entry>, files: seq<Entry>)
    requires Separate(all) && AllFit(States(all))
    modifies Footprint(all)
    ensures ok <==> Searched(old(States(all)), w).Some?
    ensures ok ==> Some(States(all)) == Searched(old(States(all)), w)
                   && dirs == Content.Pick(all, Hits(old(States(all)), w), KindOf, "Dir")
                   && files == Content.Pick(all, Hits(old(States(all)), w), KindOf, "File")
  {
    ghost var before := States(all);
    ghost var flags := Hits(before, w);
    ghost var done: seq<EntryState> := [];
    dirs, files := [], [];
    var i := 0;
    while i < |all|
      invariant 0 <= i <= |all| && |done| == i && |before| == |all| && |flags| == |all|
      invariant Searched(before[..i], w) == Some(done)
      invariant States(all) == done + before[i..]
      invariant dirs == Content.Pick(all[..i], flags[..i], KindOf, "Dir") && files == Content.Pick(all[..i], flags[..i], KindOf, "File")
      decreases |all| - i
    {
      ObjectsInFootprint(all, i);
      ok, done, dirs, files := SearchStep(all, i, w, before, flags, done, dirs, files);
      if !ok {
        return;
      }
      i := i + 1;
    }
    Whole(all);
    Whole(flags);
    Whole(before);
    assert States(all) == done by {
      assert done + before[|all|..] == done;
    }
    ok := true;
  }

  /** `_search`, with the lowered search word `w`: the items that match, by
      kind, with their `Text` objects as `Searched` leaves them; None when a
      highlight raises. */
  method SearchChildren(children: Content.Children<Entry>, w: string)
      returns (status: Option<nat>, out: Content.Children<Entry>)
    requires Separate(Content.All(children)) && AllFit(States(Content.All(children)))
    modifies Footprint(Content.All(children))
    ensures var all := Content.All(children);
            status.Some? <==> Searched(old(States(all)), w).Some?
    ensures var all := Content.All(children);
            var flags := Hits(old(States(all)), w);
            status.Some? ==>
              status == Some(0)
              && Some(States(all)) == Searched(old(States(all)), w)
              && out == Content.Children(Content.Pick(all, flags, KindOf, "Dir"), Content.Pick(all, flags, KindOf, "File"))
  {
    var ok, dirs, files := SearchItems(Content.All(children), w);
    if !ok {
      return None, Content.Children([], []);
    }
    status, out := Some(0), Content.Children(dirs, files);
  }

  /** `run`: the search when the word is not empty, then the limit when it
      is not zero; status 0 whatever they return. None stands for a search
      that raised. */
  method Run(children: Content.Children<Entry>, w: string, limit: int, reply: string)
      returns (status: Option<nat>, out: Content.Children<Entry>)
    requires Separate(Content.All(children)) && AllFit(States(Content.All(children)))
    modifies Footprint(Content.All(children))
    ensures w == "" ==> status == Some(0)
                        && States(Content.All(children)) == old(States(Content.All(children)))
                        && out == if limit != 0 then Content.LimitFileNum(children, limit, reply).1 else children
    ensures w != "" ==>
              var all := Content.All(children);
              var flags := Hits(old(States(all)), Lower(w));
              var found := Content.Children(Content.Pick(all, flags, KindOf, "Dir"), Content.Pick(all, flags, KindOf, "File"));
              (status.Some? <==> Searched(old(States(all)), Lower(w)).Some?)
              && (status.Some? ==> status == Some(0)
                                   && Some(States(all)) == Searched(old(States(all)), Lower(w))
                                   && out == if limit != 0 then Content.LimitFileNum(found, limit, reply).1 else found)
  {
    out := children;
    if w != "" {
      var s;
      s, out := SearchChildren(children, Lower(w));
      if s.None? {
        return None, out;
      }
    }
    if limit != 0 {
      var r := Content.LimitFileNum(out, limit, reply);
      out := r.1;
    }
    status := Some(0);
  }
}
