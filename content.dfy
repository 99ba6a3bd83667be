/** `ls_improved/lsi_content.py`: the search filter over the children of a
    directory, the item-count limit and the pass that applies them. The
    items are the records `Visual.Item`, updated in place by the search. */
module Content {
  import opened Results
  import opened Strings
  import opened ImprovedConfig
  import Visual

  /** `[children_d, children_f]`. */
  datatype Children<T> = Children(dirs: seq<T>, files: seq<T>)

  /** `children[0] + children[1]`. */
  function All<T>(c: Children<T>): seq<T>
  {
    c.dirs + c.files
  }

  // ---------------------------------------------------------------------
  // The search word and the tag masks
  // ---------------------------------------------------------------------

  /** The keys of `config.color`, in the order the table inserts them;
      `end_user` is added last. */
  const ColorKeys: seq<TagName> := [Pwd, PwdCurrent, Dir, File, Description, Search, SearchEnd, End,
                                    Underline, Red, Red2, Green, Green2, Blue, Blue2, Purple, Purple2,
                                    White, White2, DescriptionWhite, EndUser]

  /** The token that stands in for the `i`-th tag while matching: a
      backslash, `21 + i` symbols, a backslash. */
  function Mask(i: nat): string
  {
    "\\" + Repeat(Symbol, 21 + i) + "\\"
  }

  /** `;ss;` + word + `;se;`: what each occurrence of the word becomes. */
  function Highlighted(w: string): string
  {
    Tag(Search) + w + Tag(SearchEnd)
  }

  /** The words `_search` refuses: only symbols, a backslash at either end,
      or a backslash next to a symbol. */
  predicate Rejected(w: string)
    requires w != ""
  {
    (forall i :: 0 <= i < |w| ==> w[i] == Symbol)
    || w[|w| - 1] == '\\' || w[0] == '\\'
    || Contains(w, "\\" + [Symbol]) || Contains(w, [Symbol] + "\\")
  }

  /** The description with the first `k` tags of the table masked, in
      table order. */
  function MaskedUpTo(d: string, k: nat): string
    requires k <= |ColorKeys|
  {
    if k == 0 then d
    else
      TagsAreMarkers(ColorKeys[k - 1]);
      ReplaceAll(MaskedUpTo(d, k - 1), Tag(ColorKeys[k - 1]), Mask(k - 1))
  }

  /** The first `k` masks turned back into their tags, in table order. */
  function UnmaskedUpTo(d: string, k: nat): string
    requires k <= |ColorKeys|
  {
    if k == 0 then d
    else ReplaceAll(UnmaskedUpTo(d, k - 1), Mask(k - 1), Tag(ColorKeys[k - 1]))
  }

  function Masked(d: string): string
  {
    MaskedUpTo(d, |ColorKeys|)
  }

  function Unmasked(d: string): string
  {
    UnmaskedUpTo(d, |ColorKeys|)
  }

  /** No mask occurs inside another, so the masks are distinct tokens. */
  lemma MasksDistinct(i: nat, j: nat)
    requires i != j
    ensures !Contains(Mask(i), Mask(j))
  {
    var a, b := Mask(i), Mask(j);
    ContainsAt(a, b);
    forall o | 0 <= o ensures !OccursAt(a, b, o) {
      if o + |b| <= |a| {
        if o == 0 {
          assert a[o..o + |b|][|b| - 1] == a[|b| - 1] == Symbol;
        } else {
          assert a[o..o + |b|][0] == a[o] == Symbol;
        }
      }
    }
  }

  /** A description without the tag symbol has nothing to mask. */
  lemma {:induction false} MaskedPlain(d: string, k: nat)
    requires k <= |ColorKeys| && Symbol !in d
    ensures MaskedUpTo(d, k) == d
  {
    if k > 0 {
      MaskedPlain(d, k - 1);
      TagsAreMarkers(ColorKeys[k - 1]);
      ContainsNeedsFirstChar(d, Tag(ColorKeys[k - 1]));
      ReplaceAllAbsent(d, Tag(ColorKeys[k - 1]), Mask(k - 1));
    }
  }

  /** A text without a backslash has nothing to unmask. */
  lemma {:induction false} UnmaskedPlain(d: string, k: nat)
    requires k <= |ColorKeys| && '\\' !in d
    ensures UnmaskedUpTo(d, k) == d
  {
    if k > 0 {
      UnmaskedPlain(d, k - 1);
      ContainsNeedsFirstChar(d, Mask(k - 1));
      ReplaceAllAbsent(d, Mask(k - 1), Tag(ColorKeys[k - 1]));
    }
  }

  // ---------------------------------------------------------------------
  // The masked description as texts between masks
  // ---------------------------------------------------------------------

  /** The tag of the `i`-th key of the table. */
  function TagOf(i: nat): (r: string)
    ensures i < |ColorKeys| ==> |r| >= 3
  {
    if i < |ColorKeys| then
      TagsAreMarkers(ColorKeys[i]);
      Tag(ColorKeys[i])
    else ""
  }

  /** A description cut at its masks: the texts between them and, for each
      mask, the index of its tag in the table. */
  datatype Cut = Cut(texts: seq<string>, marks: seq<nat>)

  /** One more text than marks. */
  predicate Shaped(c: Cut)
  {
    |c.texts| == |c.marks| + 1
  }

  /** The cut without its first text and first mark. */
  function Tail(c: Cut): (r: Cut)
    requires Shaped(c) && |c.marks| > 0
    ensures Shaped(r)
  {
    Cut(c.texts[1..], c.marks[1..])
  }

  /** The texts in order, with `sep(i)` standing for each mark `i`:
      `Weave(c, Mask)` is the masked string, `Weave(c, TagOf)` the string
      with the tags back in place. */
  function Weave(c: Cut, sep: nat -> string): string
    requires Shaped(c)
    decreases |c.marks|
  {
    if |c.marks| == 0 then c.texts[0] else c.texts[0] + sep(c.marks[0]) + Weave(Tail(c), sep)
  }

  /** `n` copies of the mark `k`. */
  function Same(k: nat, n: nat): (r: seq<nat>)
    ensures |r| == n && forall i :: 0 <= i < n ==> r[i] == k
  {
    seq(n, _ => k)
  }

  /** The tags have no backslash, and the character after a tag's first
      symbol is not the symbol. */
  lemma TagOfShape(i: nat)
    requires i < |ColorKeys|
    ensures |TagOf(i)| >= 3 && TagOf(i)[0] == Symbol && TagOf(i)[1] != Symbol && '\\' !in TagOf(i)
  {
    var t := ColorKeys[i];
    TagsAreMarkers(t);
    assert Tag(t) == [Symbol] + Short(t) + [Symbol];
    assert '\\' !in Short(t) by {
      match t
      case Pwd => case PwdCurrent => case Dir => case File => case Description =>
      case Search => case SearchEnd => case End => case EndUser => case Underline =>
      case Red => case Red2 => case Green => case Green2 => case Blue => case Blue2 =>
      case Purple => case Purple2 => case White => case White2 => case DescriptionWhite =>
    }
  }

  /** A mask is a backslash, `21 + i` symbols and a backslash. */
  lemma MaskChars(i: nat)
    ensures |Mask(i)| == 23 + i && Mask(i)[0] == '\\' && Mask(i)[22 + i] == '\\'
    ensures forall q :: 1 <= q <= 21 + i ==> Mask(i)[q] == Symbol
  {
  }

  /** What `Rejected` rules out, character by character. */
  lemma WordShape(w: string)
    requires w != "" && !Rejected(w)
    ensures exists q :: 0 <= q < |w| && w[q] != Symbol
    ensures w[0] != '\\' && w[|w| - 1] != '\\'
    ensures forall q :: 0 <= q < |w| - 1 ==> !(w[q] == '\\' && w[q + 1] == Symbol)
    ensures forall q :: 0 <= q < |w| - 1 ==> !(w[q] == Symbol && w[q + 1] == '\\')
  {
    ContainsAt(w, "\\" + [Symbol]);
    ContainsAt(w, [Symbol] + "\\");
    forall q | 0 <= q < |w| - 1
      ensures !(w[q] == '\\' && w[q + 1] == Symbol) && !(w[q] == Symbol && w[q + 1] == '\\')
    {
      assert w[q..q + 2] == [w[q], w[q + 1]];
      assert !OccursAt(w, "\\" + [Symbol], q) && !OccursAt(w, [Symbol] + "\\", q);
    }
  }

  /** Two cuts joined by one more mark. */
  lemma {:induction false} WeaveConcat(a: Cut, b: Cut, k: nat, sep: nat -> string)
    requires Shaped(a) && Shaped(b)
    ensures Shaped(Cut(a.texts + b.texts, a.marks + [k] + b.marks))
    ensures Weave(Cut(a.texts + b.texts, a.marks + [k] + b.marks), sep) == Weave(a, sep) + sep(k) + Weave(b, sep)
    decreases |a.marks|
  {
    var c := Cut(a.texts + b.texts, a.marks + [k] + b.marks);
    if |a.marks| == 0 {
      assert Tail(c) == b;
    } else {
      assert Tail(c) == Cut(Tail(a).texts + b.texts, Tail(a).marks + [k] + b.marks);
      WeaveConcat(Tail(a), b, k, sep);
    }
  }

  /** Pieces with the same mark between each two weave into their join. */
  lemma {:induction false} WeaveJoin(pieces: seq<string>, k: nat, sep: nat -> string)
    requires |pieces| > 0
    ensures Weave(Cut(pieces, Same(k, |pieces| - 1)), sep) == Join(pieces, sep(k))
    decreases |pieces|
  {
    if |pieces| > 1 {
      var c := Cut(pieces, Same(k, |pieces| - 1));
      assert Tail(c) == Cut(pieces[1..], Same(k, |pieces| - 2));
      WeaveJoin(pieces[1..], k, sep);
    }
  }

  /** A string put in front of the first text. */
  lemma WeaveMerge(a: string, c: Cut, sep: nat -> string)
    requires Shaped(c)
    ensures Shaped(Cut([a + c.texts[0]] + c.texts[1..], c.marks))
    ensures Weave(Cut([a + c.texts[0]] + c.texts[1..], c.marks), sep) == a + Weave(c, sep)
  {
    var n := Cut([a + c.texts[0]] + c.texts[1..], c.marks);
    assert n.texts[0] == a + c.texts[0];
    if |c.marks| > 0 {
      assert Tail(n) == Tail(c);
      FrontRegroup(a, c.texts[0], sep(c.marks[0]), Weave(Tail(c), sep));
    }
  }

  /** Regrouping of the front text, the first separator and the rest. */
  lemma FrontRegroup(a: string, t: string, m: string, x: string)
    ensures (a + t) + m + x == a + (t + m + x)
  {
  }

  /** The masked string starts with the first text, followed by a
      backslash when there is a mask. */
  lemma FlatHead(c: Cut)
    requires Shaped(c)
    ensures var f := Weave(c, Mask);
            |f| >= |c.texts[0]| && f[..|c.texts[0]|] == c.texts[0]
            && (|f| > |c.texts[0]| ==> f[|c.texts[0]|] == '\\')
  {
    if |c.marks| > 0 {
      MaskChars(c.marks[0]);
    }
  }

  // The masking loop on the cut

  /** One turn of the masking loop on the cut: every text split at tag `k`,
      with mask `k` between its pieces. */
  function MaskPass(c: Cut, k: nat): (r: Cut)
    requires Shaped(c) && k < |ColorKeys|
    ensures Shaped(r)
    ensures (forall i :: 0 <= i < |c.marks| ==> c.marks[i] < k) ==> forall i :: 0 <= i < |r.marks| ==> r.marks[i] <= k
    decreases |c.marks|
  {
    TagOfShape(k);
    var pieces := SplitOn(c.texts[0], TagOf(k));
    var head := Cut(pieces, Same(k, |pieces| - 1));
    if |c.marks| == 0 then head
    else
      var r := MaskPass(Tail(c), k);
      Cut(head.texts + r.texts, head.marks + [c.marks[0]] + r.marks)
  }

  /** An occurrence of a pattern without the character `rest[0]` that
      starts in `a` ends in `a`. */
  lemma NoStraddle(a: string, rest: string, pat: string)
    requires |rest| > 0 && rest[0] !in pat
    ensures EndsWithin(a, rest, pat)
  {
    forall j | 0 <= j < |a| && j + |pat| > |a| ensures !OccursAt(a + rest, pat, j) {
      if j + |pat| <= |a + rest| {
        var x := (a + rest)[j..j + |pat|];
        assert x[|a| - j] == rest[0];
      }
    }
  }

  /** A tag does not start inside a mask. */
  lemma TagNotInMask(i: nat, b: string, k: nat)
    requires k < |ColorKeys|
    ensures NoneStartIn(Mask(i), b, TagOf(k))
  {
    MaskChars(i);
    TagOfShape(k);
    var s, t := Mask(i) + b, TagOf(k);
    forall j | 0 <= j < |Mask(i)| ensures !OccursAt(s, t, j) {
      if j + |t| <= |s| {
        var x := s[j..j + |t|];
        if j + |t| > 22 + i {
          assert x[22 + i - j] == '\\';
        } else if j == 0 {
          assert x[0] == '\\';
        } else {
          assert x[1] == Symbol;
        }
      }
    }
  }

  /** Masking tag `k` in a text followed by a mask: the text is split at
      the tag and the mask kept. */
  lemma MaskStep(t0: string, i: nat, tail: string, k: nat)
    requires k < |ColorKeys|
    ensures ReplaceAll(t0 + (Mask(i) + tail), TagOf(k), Mask(k))
            == Join(SplitOn(t0, TagOf(k)), Mask(k)) + Mask(i) + ReplaceAll(tail, TagOf(k), Mask(k))
  {
    TagOfShape(k);
    MaskChars(i);
    NoStraddle(t0, Mask(i) + tail, TagOf(k));
    ReplaceAllConcat(t0, Mask(i) + tail, TagOf(k), Mask(k));
    TagNotInMask(i, tail, k);
    ReplaceAllSkip(Mask(i), tail, TagOf(k), Mask(k));
    ReplaceAllIsJoinOfSplit(t0, TagOf(k), Mask(k));
  }

  /** Masking tag `k` in the masked string is the mask pass on the cut. */
  lemma {:induction false} MaskPassFlat(c: Cut, k: nat)
    requires Shaped(c) && k < |ColorKeys|
    ensures ReplaceAll(Weave(c, Mask), TagOf(k), Mask(k)) == Weave(MaskPass(c, k), Mask)
    decreases |c.marks|
  {
    TagOfShape(k);
    var t0 := c.texts[0];
    var pieces := SplitOn(t0, TagOf(k));
    WeaveJoin(pieces, k, Mask);
    if |c.marks| == 0 {
      ReplaceAllIsJoinOfSplit(t0, TagOf(k), Mask(k));
    } else {
      var tail := Weave(Tail(c), Mask);
      assert Weave(c, Mask) == t0 + (Mask(c.marks[0]) + tail);
      MaskStep(t0, c.marks[0], tail, k);
      MaskPassFlat(Tail(c), k);
      WeaveConcat(Cut(pieces, Same(k, |pieces| - 1)), MaskPass(Tail(c), k), c.marks[0], Mask);
    }
  }

  /** The mask pass keeps the string the tags weave into. */
  lemma {:induction false} MaskPassExpanded(c: Cut, k: nat)
    requires Shaped(c) && k < |ColorKeys|
    ensures Weave(MaskPass(c, k), TagOf) == Weave(c, TagOf)
    decreases |c.marks|
  {
    TagOfShape(k);
    var pieces := SplitOn(c.texts[0], TagOf(k));
    WeaveJoin(pieces, k, TagOf);
    SplitJoin(c.texts[0], TagOf(k));
    if |c.marks| > 0 {
      MaskPassExpanded(Tail(c), k);
      WeaveConcat(Cut(pieces, Same(k, |pieces| - 1)), MaskPass(Tail(c), k), c.marks[0], TagOf);
    }
  }

  /** Every text of the cut is a part of `d`. */
  predicate Within(c: Cut, d: string)
  {
    forall i :: 0 <= i < |c.texts| ==> Contains(d, c.texts[i])
  }

  /** The pieces of a text are parts of it. */
  lemma {:induction false} MaskPassWithin(c: Cut, k: nat, d: string)
    requires Shaped(c) && k < |ColorKeys| && Within(c, d)
    ensures Within(MaskPass(c, k), d)
    decreases |c.marks|
  {
    TagOfShape(k);
    var pieces := SplitOn(c.texts[0], TagOf(k));
    SplitPiecesWithin(c.texts[0], TagOf(k));
    forall i | 0 <= i < |pieces| ensures Contains(d, pieces[i]) {
      ContainsTrans(d, c.texts[0], pieces[i]);
    }
    if |c.marks| > 0 {
      MaskPassWithin(Tail(c), k, d);
      var r := MaskPass(Tail(c), k);
      forall i | 0 <= i < |r.texts| ensures Contains(d, r.texts[i]) {
      }
    }
  }

  /** The cut after the first `k` turns of the masking loop. */
  function MaskedCut(d: string, k: nat): (r: Cut)
    requires k <= |ColorKeys|
    ensures Shaped(r) && forall i :: 0 <= i < |r.marks| ==> r.marks[i] < k
  {
    if k == 0 then Cut([d], []) else MaskPass(MaskedCut(d, k - 1), k - 1)
  }

  /** One more turn of the masking loop. */
  lemma MaskedUpToUnfold(d: string, k: nat)
    requires 0 < k <= |ColorKeys|
    ensures MaskedUpTo(d, k) == ReplaceAll(MaskedUpTo(d, k - 1), Tag(ColorKeys[k - 1]), Mask(k - 1))
  {
  }

  /** One more turn of the cut. */
  lemma MaskedCutUnfold(d: string, k: nat)
    requires 0 < k <= |ColorKeys|
    ensures MaskedCut(d, k) == MaskPass(MaskedCut(d, k - 1), k - 1)
  {
  }

  /** One turn of the masking loop on the masked string of a cut is the
      mask pass. */
  lemma MaskTurnFlat(x: string, y: string, p: Cut, k: nat)
    requires Shaped(p) && k < |ColorKeys| && x == Weave(p, Mask)
    requires y == ReplaceAll(x, Tag(ColorKeys[k]), Mask(k))
    ensures y == Weave(MaskPass(p, k), Mask)
  {
    MaskPassFlat(p, k);
  }

  /** The masking loop is the mask passes on the cut. */
  lemma {:induction false} MaskedCutFlat(d: string, k: nat)
    requires k <= |ColorKeys|
    ensures MaskedUpTo(d, k) == Weave(MaskedCut(d, k), Mask)
  {
    if k > 0 {
      MaskedCutFlat(d, k - 1);
      MaskedUpToUnfold(d, k);
      MaskTurnFlat(MaskedUpTo(d, k - 1), MaskedUpTo(d, k), MaskedCut(d, k - 1), k - 1);
      MaskedCutUnfold(d, k);
    }
  }


  /** The tags weave the cut back into the description. */
  lemma {:induction false} MaskedCutExpanded(d: string, k: nat)
    requires k <= |ColorKeys|
    ensures Weave(MaskedCut(d, k), TagOf) == d
  {
    if k > 0 {
      MaskedCutExpanded(d, k - 1);
      MaskedCutUnfold(d, k);
      MaskPassKeepsWeave(MaskedCut(d, k - 1), k - 1, d);
    }
  }

  /** A mask pass keeps what the cut weaves to with the tags. */
  lemma MaskPassKeepsWeave(p: Cut, k: nat, d: string)
    requires Shaped(p) && k < |ColorKeys| && Weave(p, TagOf) == d
    ensures Weave(MaskPass(p, k), TagOf) == d
  {
    MaskPassExpanded(p, k);
  }

  /** The texts of the cut are parts of the description. */
  lemma {:induction false} MaskedCutWithin(d: string, k: nat)
    requires k <= |ColorKeys|
    ensures Within(MaskedCut(d, k), d)
  {
    if k == 0 {
      assert Contains(d, d) by { assert d <= d; }
    } else {
      MaskedCutWithin(d, k - 1);
      MaskedCutUnfold(d, k);
      MaskPassWithin(MaskedCut(d, k - 1), k - 1, d);
    }
  }

  // The unmasking loop on the cut

  /** Every backslash of the text has a character other than the symbol on
      either side. */
  predicate Guarded(t: string)
  {
    forall j :: 0 <= j < |t| && t[j] == '\\' ==> 0 < j < |t| - 1 && t[j - 1] != Symbol && t[j + 1] != Symbol
  }

  /** At least 21 characters, all of them the symbol. */
  predicate SymbolRun(t: string)
  {
    |t| >= 21 && forall j :: 0 <= j < |t| ==> t[j] == Symbol
  }

  /** No text of the cut can run into a mask. */
  predicate Clean(c: Cut)
  {
    forall i :: 0 <= i < |c.texts| ==> Guarded(c.texts[i]) && !SymbolRun(c.texts[i])
  }

  lemma GuardedConcat(a: string, b: string)
    requires Guarded(a) && Guarded(b)
    ensures Guarded(a + b)
  {
    var s := a + b;
    forall j | 0 <= j < |s| && s[j] == '\\'
      ensures 0 < j < |s| - 1 && s[j - 1] != Symbol && s[j + 1] != Symbol
    {
      if j < |a| {
        assert a[j] == '\\';
      } else {
        assert b[j - |a|] == '\\';
      }
    }
  }

  /** One turn of the unmasking loop on the cut: each mask `k` becomes its
      tag, joining the texts on either side. */
  function UnmaskPass(c: Cut, k: nat): (r: Cut)
    requires Shaped(c)
    ensures Shaped(r)
    ensures forall i :: 0 <= i < |r.marks| ==> r.marks[i] != k && r.marks[i] in c.marks
    decreases |c.marks|
  {
    if |c.marks| == 0 then c
    else
      var r := UnmaskPass(Tail(c), k);
      if c.marks[0] == k then Cut([c.texts[0] + TagOf(k) + r.texts[0]] + r.texts[1..], r.marks)
      else Cut([c.texts[0]] + r.texts, [c.marks[0]] + r.marks)
  }

  /** A mask does not start inside a guarded text. */
  lemma GuardedNoMask(a: string, b: string, k: nat)
    requires Guarded(a)
    ensures NoneStartIn(a, b, Mask(k))
  {
    MaskChars(k);
    forall j | 0 <= j < |a| ensures !OccursAt(a + b, Mask(k), j) {
      if j + |Mask(k)| <= |a + b| {
        var x := (a + b)[j..j + |Mask(k)|];
        assert x[0] == a[j];
        if a[j] == '\\' {
          assert x[1] == a[j + 1];
          assert x[1] != Mask(k)[1];
        } else {
          assert x[0] != Mask(k)[0];
        }
      }
    }
  }

  /** Mask `k` starts inside mask `i` only at its start, and only when
      `i == k`, when the text after mask `i` is clean: a mask's closing
      backslash cannot open mask `k`. */
  /** A guarded text followed by a backslash (or by nothing) cannot supply
      the symbol run and closing backslash of a mask: some position differs. */
  lemma MaskDiffers(f: string, t1: string, k: nat) returns (y: nat)
    requires Guarded(t1) && !SymbolRun(t1)
    requires |f| >= |t1| && f[..|t1|] == t1 && (|f| > |t1| ==> f[|t1|] == '\\')
    requires |f| >= 22 + k
    ensures y <= 21 + k && f[y] != Mask(k)[y + 1]
  {
    MaskChars(k);
    var l := |t1|;
    assert forall q :: 0 <= q < l ==> f[q] == t1[q] by {
      forall q | 0 <= q < l ensures f[q] == t1[q] {
        assert f[..l][q] == f[q];
      }
    }
    if l >= 22 + k {
      if t1[21 + k] == '\\' {
        y := 20 + k;
      } else {
        y := 21 + k;
      }
    } else if l == 21 + k {
      y :| 0 <= y < l && t1[y] != Symbol;
    } else {
      y := l;
    }
  }

  lemma MaskNoStray(i: nat, k: nat, f: string, t1: string)
    requires Guarded(t1) && !SymbolRun(t1)
    requires |f| >= |t1| && f[..|t1|] == t1 && (|f| > |t1| ==> f[|t1|] == '\\')
    ensures forall j :: 0 <= j < |Mask(i)| && OccursAt(Mask(i) + f, Mask(k), j) ==> j == 0 && i == k
  {
    MaskChars(i);
    MaskChars(k);
    var s, p := Mask(i) + f, Mask(k);
    forall j | 0 < j < |Mask(i)| ensures !OccursAt(s, p, j) {
      if j + |p| <= |s| {
        var x := s[j..j + |p|];
        if j < 22 + i {
          assert x[0] == Symbol && x[0] != p[0];
        } else {
          var y := MaskDiffers(f, t1, k);
          assert x[y + 1] == f[y];
        }
      }
    }
    if i != k {
      assert !OccursAt(s, p, 0) by {
        if |p| <= |s| {
          var x := s[..|p|];
          if i < k {
            assert x[22 + i] == '\\' && x[22 + i] != p[22 + i];
          } else {
            assert x[22 + k] == Symbol && x[22 + k] != p[22 + k];
          }
        }
      }
    }
  }

  /** The tail of a clean cut is clean. */
  lemma CleanTail(c: Cut)
    requires Shaped(c) && |c.marks| > 0 && Clean(c)
    ensures Clean(Tail(c))
  {
    forall i | 0 <= i < |Tail(c).texts| ensures Guarded(Tail(c).texts[i]) && !SymbolRun(Tail(c).texts[i]) {
      assert Tail(c).texts[i] == c.texts[i + 1];
    }
  }

  /** Unmasking `k` in mask `i` followed by a string that starts with a
      clean text: the mask becomes the tag when `i == k`, and is kept
      otherwise. */
  lemma UnmaskMask(i: nat, f: string, t1: string, k: nat)
    requires Guarded(t1) && !SymbolRun(t1)
    requires |f| >= |t1| && f[..|t1|] == t1 && (|f| > |t1| ==> f[|t1|] == '\\')
    ensures ReplaceAll(Mask(i) + f, Mask(k), TagOf(k))
            == (if i == k then TagOf(k) else Mask(i)) + ReplaceAll(f, Mask(k), TagOf(k))
  {
    MaskChars(k);
    MaskNoStray(i, k, f, t1);
    if i == k {
      assert (Mask(k) + f)[|Mask(k)|..] == f;
      assert Mask(k) <= Mask(k) + f;
    } else {
      assert NoneStartIn(Mask(i), f, Mask(k));
      ReplaceAllSkip(Mask(i), f, Mask(k), TagOf(k));
    }
  }

  /** Unmasking `k` in a guarded text followed by mask `i` and the masked
      string of a cut whose first text is clean: the text is kept, and the
      mask becomes the tag when `i == k`. */
  lemma UnmaskStep(t0: string, i: nat, f: string, t1: string, k: nat)
    requires Guarded(t0) && Guarded(t1) && !SymbolRun(t1)
    requires |f| >= |t1| && f[..|t1|] == t1 && (|f| > |t1| ==> f[|t1|] == '\\')
    ensures ReplaceAll(t0 + (Mask(i) + f), Mask(k), TagOf(k))
            == t0 + (if i == k then TagOf(k) else Mask(i)) + ReplaceAll(f, Mask(k), TagOf(k))
  {
    MaskChars(k);
    GuardedNoMask(t0, Mask(i) + f, k);
    ReplaceAllSkip(t0, Mask(i) + f, Mask(k), TagOf(k));
    UnmaskMask(i, f, t1, k);
    var x, r := if i == k then TagOf(k) else Mask(i), ReplaceAll(f, Mask(k), TagOf(k));
    assert t0 + (x + r) == t0 + x + r;
  }


  /** Unmasking `k` in the masked string of a clean cut is the unmask pass
      on the cut. */
  lemma {:induction false} UnmaskPassFlat(c: Cut, k: nat)
    requires Shaped(c) && Clean(c)
    ensures ReplaceAll(Weave(c, Mask), Mask(k), TagOf(k)) == Weave(UnmaskPass(c, k), Mask)
    decreases |c.marks|
  {
    var t0 := c.texts[0];
    if |c.marks| == 0 {
      MaskChars(k);
      GuardedNoMask(t0, "", k);
      ReplaceAllSkip(t0, "", Mask(k), TagOf(k));
      assert t0 + "" == t0;
    } else {
      assert Weave(c, Mask) == t0 + (Mask(c.marks[0]) + Weave(Tail(c), Mask));
      CleanTail(c);
      FlatHead(Tail(c));
      UnmaskStep(t0, c.marks[0], Weave(Tail(c), Mask), Tail(c).texts[0], k);
      UnmaskPassFlat(Tail(c), k);
      var r := UnmaskPass(Tail(c), k);
      if c.marks[0] == k {
        WeaveMerge(t0 + TagOf(k), r, Mask);
      } else {
        var n := Cut([t0] + r.texts, [c.marks[0]] + r.marks);
        assert Tail(n) == r;
      }
    }
  }

  /** The unmask pass keeps the string the tags weave into. */
  lemma {:induction false} UnmaskPassExpanded(c: Cut, k: nat)
    requires Shaped(c)
    ensures Weave(UnmaskPass(c, k), TagOf) == Weave(c, TagOf)
    decreases |c.marks|
  {
    if |c.marks| > 0 {
      UnmaskPassExpanded(Tail(c), k);
      var r := UnmaskPass(Tail(c), k);
      if c.marks[0] == k {
        WeaveMerge(c.texts[0] + TagOf(k), r, TagOf);
      } else {
        var n := Cut([c.texts[0]] + r.texts, [c.marks[0]] + r.marks);
        assert Tail(n) == r;
      }
    }
  }

  /** The unmask pass keeps the cut clean: a joined text holds a tag. */
  lemma {:induction false} UnmaskPassClean(c: Cut, k: nat)
    requires Shaped(c) && Clean(c) && k < |ColorKeys|
    ensures Clean(UnmaskPass(c, k))
    decreases |c.marks|
  {
    if |c.marks| > 0 {
      CleanTail(c);
      UnmaskPassClean(Tail(c), k);
      var r := UnmaskPass(Tail(c), k);
      assert Guarded(c.texts[0]) && !SymbolRun(c.texts[0]);
      if c.marks[0] == k {
        UnmaskMergeClean(c.texts[0], r, k);
      } else {
        UnmaskKeepClean(c.texts[0], c.marks[0], r);
      }
    }
  }

  /** A tag put back between two clean texts leaves a clean text. */
  lemma UnmaskMergeClean(t0: string, r: Cut, k: nat)
    requires Shaped(r) && Clean(r) && Guarded(t0) && !SymbolRun(t0) && k < |ColorKeys|
    ensures Clean(Cut([t0 + TagOf(k) + r.texts[0]] + r.texts[1..], r.marks))
  {
    var t := t0 + TagOf(k) + r.texts[0];
    TagMergeClean(t0, k, r.texts[0]);
    var n := Cut([t] + r.texts[1..], r.marks);
    forall i | 0 <= i < |n.texts| ensures Guarded(n.texts[i]) && !SymbolRun(n.texts[i]) {
      if i > 0 {
        assert n.texts[i] == r.texts[i];
      }
    }
  }

  /** The text a tag joins back together is guarded and not a symbol run. */
  lemma TagMergeClean(t0: string, k: nat, t1: string)
    requires Guarded(t0) && Guarded(t1) && k < |ColorKeys|
    ensures Guarded(t0 + TagOf(k) + t1) && !SymbolRun(t0 + TagOf(k) + t1)
  {
    TagOfShape(k);
    var t := t0 + TagOf(k) + t1;
    GuardedConcat(t0, TagOf(k));
    GuardedConcat(t0 + TagOf(k), t1);
    assert t[|t0| + 1] == TagOf(k)[1];
  }

  /** A clean text in front of a clean cut keeps it clean. */
  lemma UnmaskKeepClean(t0: string, m: nat, r: Cut)
    requires Clean(r) && Guarded(t0) && !SymbolRun(t0)
    ensures Clean(Cut([t0] + r.texts, [m] + r.marks))
  {
    var n := Cut([t0] + r.texts, [m] + r.marks);
    forall i | 0 <= i < |n.texts| ensures Guarded(n.texts[i]) && !SymbolRun(n.texts[i]) {
      if i > 0 {
        assert n.texts[i] == r.texts[i - 1];
      }
    }
  }

  /** One turn of the unmasking loop, on the masked string of a clean cut
      whose marks are all at least `k`: it gives the masked string of
      another clean cut, which the tags weave into the same string and
      whose marks are those of the first above `k`. */
  lemma UnmaskTurn(p: Cut, k: nat) returns (r: Cut)
    requires Shaped(p) && Clean(p) && k < |ColorKeys|
    ensures Shaped(r) && Clean(r)
    ensures ReplaceAll(Weave(p, Mask), Mask(k), TagOf(k)) == Weave(r, Mask)
    ensures Weave(r, TagOf) == Weave(p, TagOf)
    ensures forall i :: 0 <= i < |r.marks| ==> r.marks[i] != k && r.marks[i] in p.marks
  {
    r := UnmaskPass(p, k);
    assert Clean(r) by {
      UnmaskPassClean(p, k);
    }
    assert ReplaceAll(Weave(p, Mask), Mask(k), TagOf(k)) == Weave(r, Mask) by {
      UnmaskPassFlat(p, k);
    }
    assert Weave(r, TagOf) == Weave(p, TagOf) by {
      UnmaskPassExpanded(p, k);
    }
  }

  /** The unmasking loop from turn `k` to the end. */
  function UnmaskedFromTurn(s: string, k: nat): string
    requires k <= |ColorKeys|
    decreases |ColorKeys| - k
  {
    if k == |ColorKeys| then s else UnmaskedFromTurn(ReplaceAll(s, Mask(k), TagOf(k)), k + 1)
  }

  /** The turns before `k` followed by the turns from `k` on are the whole
      loop. */
  lemma {:induction false} UnmaskedSplit(d: string, k: nat)
    requires k <= |ColorKeys|
    ensures UnmaskedFromTurn(UnmaskedUpTo(d, k), k) == Unmasked(d)
    decreases |ColorKeys| - k
  {
    if k < |ColorKeys| {
      assert TagOf(k) == Tag(ColorKeys[k]);
      assert ReplaceAll(UnmaskedUpTo(d, k), Mask(k), TagOf(k)) == UnmaskedUpTo(d, k + 1);
      UnmaskedSplit(d, k + 1);
    }
  }

  /** The turns from `k` on, on the masked string of a clean cut whose
      marks are masks from `k` on, put every tag back. */
  lemma {:induction false} UnmaskedTurnsClean(p: Cut, k: nat)
    requires Shaped(p) && Clean(p) && k <= |ColorKeys|
    requires forall i :: 0 <= i < |p.marks| ==> k <= p.marks[i] < |ColorKeys|
    ensures UnmaskedFromTurn(Weave(p, Mask), k) == Weave(p, TagOf)
    decreases |ColorKeys| - k, 1
  {
    if k == |ColorKeys| {
      FirstIn(p.marks);
    } else {
      UnmaskedTurnsCleanStep(p, k);
    }
  }

  /** One turn of `UnmaskedTurnsClean`. */
  lemma {:induction false} UnmaskedTurnsCleanStep(p: Cut, k: nat)
    requires Shaped(p) && Clean(p) && k < |ColorKeys|
    requires forall i :: 0 <= i < |p.marks| ==> k <= p.marks[i] < |ColorKeys|
    ensures UnmaskedFromTurn(Weave(p, Mask), k) == Weave(p, TagOf)
    decreases |ColorKeys| - k, 0
  {
    var r := UnmaskTurn(p, k);
    forall i | 0 <= i < |r.marks| ensures k + 1 <= r.marks[i] < |ColorKeys| {
      var x := r.marks[i];
      assert x in p.marks;
    }
    UnmaskedTurnsClean(r, k + 1);
  }



  /** Unmasking the masked string of a clean cut whose marks are table
      indices puts every tag back in place of its mask. */
  lemma UnmaskedCleanCut(c: Cut)
    requires Shaped(c) && Clean(c) && forall i :: 0 <= i < |c.marks| ==> c.marks[i] < |ColorKeys|
    ensures Unmasked(Weave(c, Mask)) == Weave(c, TagOf)
  {
    UnmaskedSplit(Weave(c, Mask), 0);
    UnmaskedTurnsClean(c, 0);
  }


  /** The first element of a non-empty sequence is one of its elements. */
  lemma FirstIn(s: seq<nat>)
    ensures |s| > 0 ==> s[0] in s
  {
  }

  /** A run of 21 symbols holds `Repeat(Symbol, 21)`. */
  lemma RunHoldsRepeat(t: string)
    requires SymbolRun(t)
    ensures Contains(t, Repeat(Symbol, 21))
  {
    assert t[..21] == Repeat(Symbol, 21);
    assert Repeat(Symbol, 21) <= t;
  }

  /** The texts of a description without backslashes or runs of 21
      symbols are clean. */
  lemma CleanWithin(c: Cut, d: string)
    requires Within(c, d) && '\\' !in d && !Contains(d, Repeat(Symbol, 21))
    ensures Clean(c)
    ensures forall i :: 0 <= i < |c.texts| ==> '\\' !in c.texts[i] && !Contains(c.texts[i], Repeat(Symbol, 21))
  {
    forall i | 0 <= i < |c.texts|
      ensures '\\' !in c.texts[i] && !Contains(c.texts[i], Repeat(Symbol, 21))
    {
      if '\\' in c.texts[i] {
        CharWithin(d, c.texts[i], '\\');
      }
      if Contains(c.texts[i], Repeat(Symbol, 21)) {
        ContainsTrans(d, c.texts[i], Repeat(Symbol, 21));
      }
    }
    forall i | 0 <= i < |c.texts| ensures !SymbolRun(c.texts[i]) {
      if SymbolRun(c.texts[i]) {
        RunHoldsRepeat(c.texts[i]);
      }
    }
  }

  /** For a description without backslashes and without a run of 21
      symbols, unmasking the masked description gives it back. */
  lemma MaskRoundTrip(d: string)
    requires '\\' !in d && !Contains(d, Repeat(Symbol, 21))
    ensures Unmasked(Masked(d)) == d
  {
    MaskedCutFlat(d, |ColorKeys|);
    MaskedCutExpanded(d, |ColorKeys|);
    MaskedCutWithin(d, |ColorKeys|);
    var c := MaskedCut(d, |ColorKeys|);
    CleanWithin(c, d);
    UnmaskedCleanCut(c);
  }

  // The search word on the cut

  /** The texts of the cut with every occurrence of the word highlighted. */
  function HighlightTexts(c: Cut, w: string): (r: Cut)
    requires w != ""
    ensures |r.texts| == |c.texts| && r.marks == c.marks
  {
    Cut(seq(|c.texts|, i requires 0 <= i < |c.texts| => ReplaceAll(c.texts[i], w, Highlighted(w))), c.marks)
  }

  /** An accepted word does not run from a text into the mask after it. */
  lemma WordNoStraddle(a: string, i: nat, b: string, w: string)
    requires w != "" && !Rejected(w)
    ensures EndsWithin(a, Mask(i) + b, w)
  {
    MaskChars(i);
    WordShape(w);
    var s := a + (Mask(i) + b);
    forall j | 0 <= j < |a| && j + |w| > |a| ensures !OccursAt(s, w, j) {
      if j + |w| <= |s| {
        var x := s[j..j + |w|];
        var q := |a| - j;
        assert x[q] == '\\';
        if q < |w| - 1 {
          assert x[q + 1] == Symbol;
        }
      }
    }
  }

  /** An accepted word does not start inside a mask. */
  lemma WordNotInMask(i: nat, b: string, w: string)
    requires w != "" && !Rejected(w)
    ensures NoneStartIn(Mask(i), b, w)
  {
    MaskChars(i);
    WordShape(w);
    var s := Mask(i) + b;
    forall j | 0 <= j < |Mask(i)| ensures !OccursAt(s, w, j) {
      if j + |w| <= |s| {
        var x := s[j..j + |w|];
        if j == 0 || j == 22 + i {
          assert x[0] == '\\';
        } else if j + |w| <= 22 + i {
          assert forall q :: 0 <= q < |x| ==> x[q] == Symbol;
        } else {
          var q := 22 + i - j;
          assert x[q] == '\\' && x[q - 1] == Symbol;
        }
      }
    }
  }

  /** Highlighting an accepted word in a text followed by a mask: the
      text is highlighted and the mask kept. */
  lemma WordStep(t0: string, i: nat, tail: string, w: string)
    requires w != "" && !Rejected(w)
    ensures ReplaceAll(t0 + (Mask(i) + tail), w, Highlighted(w))
            == ReplaceAll(t0, w, Highlighted(w)) + Mask(i) + ReplaceAll(tail, w, Highlighted(w))
  {
    WordNoStraddle(t0, i, tail, w);
    ReplaceAllConcat(t0, Mask(i) + tail, w, Highlighted(w));
    WordNotInMask(i, tail, w);
    ReplaceAllSkip(Mask(i), tail, w, Highlighted(w));
  }

  /** Highlighting an accepted word in the masked string highlights it in
      each text and leaves the masks alone. */
  lemma {:induction false} HighlightFlat(c: Cut, w: string)
    requires Shaped(c) && w != "" && !Rejected(w)
    ensures ReplaceAll(Weave(c, Mask), w, Highlighted(w)) == Weave(HighlightTexts(c, w), Mask)
    decreases |c.marks|
  {
    if |c.marks| > 0 {
      var h := HighlightTexts(c, w);
      assert Weave(c, Mask) == c.texts[0] + (Mask(c.marks[0]) + Weave(Tail(c), Mask));
      WordStep(c.texts[0], c.marks[0], Weave(Tail(c), Mask), w);
      HighlightFlat(Tail(c), w);
      assert Tail(h) == HighlightTexts(Tail(c), w);
    }
  }

  /** An occurrence of an accepted word that starts in a text followed by
      a mask lies in that text. */
  lemma OccursBefore(t0: string, i: nat, tail: string, w: string, j: int)
    requires w != "" && !Rejected(w) && OccursAt(t0 + (Mask(i) + tail), w, j) && j < |t0|
    ensures OccursAt(t0, w, j)
  {
    WordNoStraddle(t0, i, tail, w);
    assert (t0 + (Mask(i) + tail))[j..j + |w|] == t0[j..j + |w|];
  }

  /** An occurrence of an accepted word that starts after a text lies in
      the text after the mask. */
  lemma OccursAfter(t0: string, i: nat, tail: string, w: string, j: int)
    requires w != "" && !Rejected(w) && OccursAt(t0 + (Mask(i) + tail), w, j) && j >= |t0|
    ensures OccursAt(tail, w, j - |t0| - |Mask(i)|)
  {
    var m := Mask(i);
    var s := t0 + (m + tail);
    assert s[|t0|..] == m + tail;
    OccursShift(s, w, |t0|, j - |t0|);
    WordNotInMask(i, tail, w);
    assert (m + tail)[|m|..] == tail;
    OccursShift(m + tail, w, |m|, j - |t0| - |m|);
  }

  /** An accepted word in a text followed by a mask and more text occurs
      in the first text or in the rest. */
  lemma ContainsSplit(t0: string, i: nat, tail: string, w: string)
    requires w != "" && !Rejected(w) && Contains(t0 + (Mask(i) + tail), w)
    ensures Contains(t0, w) || Contains(tail, w)
  {
    ContainsAt(t0 + (Mask(i) + tail), w);
    var j :| OccursAt(t0 + (Mask(i) + tail), w, j);
    if j < |t0| {
      OccursBefore(t0, i, tail, w, j);
      ContainsAt(t0, w);
    } else {
      OccursAfter(t0, i, tail, w, j);
      ContainsAt(tail, w);
    }
  }


  /** A word in the first text, or in the rest, occurs in the whole. */
  lemma ContainsJoin(t0: string, i: nat, tail: string, w: string)
    requires Contains(t0, w) || Contains(tail, w)
    ensures Contains(t0 + (Mask(i) + tail), w)
  {
    var s := t0 + (Mask(i) + tail);
    if Contains(t0, w) {
      assert Contains(s, t0) by { assert t0 <= s; }
      ContainsTrans(s, t0, w);
    } else {
      assert s[|t0| + |Mask(i)|..] == tail;
      ContainsInSuffix(s, |t0| + |Mask(i)|, w);
    }
  }

  /** An accepted word occurs in the masked string exactly when it occurs
      in one of the texts between the masks. */
  lemma {:induction false} ContainsWeave(c: Cut, w: string)
    requires Shaped(c) && w != "" && !Rejected(w)
    ensures Contains(Weave(c, Mask), w) <==> exists i :: 0 <= i < |c.texts| && Contains(c.texts[i], w)
    decreases |c.marks|
  {
    if |c.marks| > 0 {
      var t0 := c.texts[0];
      var tail := Weave(Tail(c), Mask);
      assert Weave(c, Mask) == t0 + (Mask(c.marks[0]) + tail);
      ContainsWeave(Tail(c), w);
      if Contains(Weave(c, Mask), w) {
        ContainsSplit(t0, c.marks[0], tail, w);
        if !Contains(t0, w) {
          var i :| 0 <= i < |Tail(c).texts| && Contains(Tail(c).texts[i], w);
          assert c.texts[i + 1] == Tail(c).texts[i];
        }
      }
      if exists i :: 0 <= i < |c.texts| && Contains(c.texts[i], w) {
        var i :| 0 <= i < |c.texts| && Contains(c.texts[i], w);
        if i > 0 {
          assert Tail(c).texts[i - 1] == c.texts[i];
        }
        ContainsJoin(t0, c.marks[0], tail, w);
      }
    }
  }


  /** A text without backslashes stays guarded when an accepted word is
      highlighted in it. */
  lemma {:induction false} GuardedHighlight(t: string, w: string)
    requires w != "" && !Rejected(w) && '\\' !in t
    ensures Guarded(ReplaceAll(t, w, Highlighted(w)))
    decreases |t|
  {
    if w <= t {
      GuardedHighlighted(w);
      assert '\\' !in t[|w|..] by {
        forall c | c in t[|w|..] ensures c in t { }
      }
      GuardedHighlight(t[|w|..], w);
      GuardedConcat(Highlighted(w), ReplaceAll(t[|w|..], w, Highlighted(w)));
    } else if |t| > 0 {
      assert '\\' !in t[1..] by {
        forall c | c in t[1..] ensures c in t { }
      }
      GuardedHighlight(t[1..], w);
      GuardedConcat([t[0]], ReplaceAll(t[1..], w, Highlighted(w)));
    }
  }

  /** The highlighted word is guarded: its backslashes lie inside the word,
      away from its ends and from any symbol. */
  lemma GuardedHighlighted(w: string)
    requires w != "" && !Rejected(w)
    ensures Guarded(Highlighted(w))
  {
    WordShape(w);
    TagOfShape(5);
    TagOfShape(6);
    var h := Highlighted(w);
    assert h == TagOf(5) + w + TagOf(6);
    assert |TagOf(5)| == 4;
    forall j | 0 <= j < |h| && h[j] == '\\'
      ensures 0 < j < |h| - 1 && h[j - 1] != Symbol && h[j + 1] != Symbol
    {
      if 4 <= j < 4 + |w| {
        var q := j - 4;
        assert h[j] == w[q];
        if q > 0 {
          assert h[j - 1] == w[q - 1];
        }
        if q < |w| - 1 {
          assert h[j + 1] == w[q + 1];
        }
      }
    }
  }

  /** A text without a run of 21 symbols is not a run after the highlight:
      either the word is absent, or the highlight brings a letter. */
  lemma NotRunHighlight(t: string, w: string)
    requires w != "" && !Contains(t, Repeat(Symbol, 21))
    ensures !SymbolRun(ReplaceAll(t, w, Highlighted(w)))
  {
    if Contains(t, w) {
      HighlightBreaksRun(t, w);
    } else {
      ReplaceAllAbsent(t, w, Highlighted(w));
      if SymbolRun(t) {
        RunHoldsRepeat(t);
      }
    }
  }

  /** A text where the word was highlighted holds a character of the
      highlight tag that is not the symbol. */
  lemma HighlightBreaksRun(t: string, w: string)
    requires w != "" && Contains(t, w)
    ensures !SymbolRun(ReplaceAll(t, w, Highlighted(w)))
  {
    var r := ReplaceAll(t, w, Highlighted(w));
    ReplaceAllShowsRep(t, w, Highlighted(w));
    ContainsAt(r, Highlighted(w));
    var o :| OccursAt(r, Highlighted(w), o);
    OccursChar(r, Highlighted(w), o, 1);
    HighlightedSecond(w);
  }

  /** The second character of a highlighted word is not the symbol. */
  lemma HighlightedSecond(w: string)
    ensures |Highlighted(w)| > 1 && Highlighted(w)[1] != Symbol
  {
    TagsAreMarkers(Search);
    assert Highlighted(w)[1] == Tag(Search)[1];
  }

  // ---------------------------------------------------------------------
  // One item
  // ---------------------------------------------------------------------

  /** What the search does to one item: whether it is kept, and its new
      path and description. */
  datatype Outcome = Outcome(kept: bool, path: string, description: Option<string>)

  /** The word is in the path, or in the masked description. */
  function Searched(path: string, description: Option<string>, w: string): (r: Outcome)
    requires w != ""
  {
    var matchPath := Contains(path, w);
    var masked := if description.Some? then Masked(description.value) else "";
    var matchDesc := description.Some? && Contains(masked, w);
    Outcome(matchPath || matchDesc,
            if matchPath then ReplaceAll(path, w, Highlighted(w)) else path,
            if matchDesc then Some(Unmasked(ReplaceAll(masked, w, Highlighted(w)))) else description)
  }

  /** An item is kept exactly when its path or its masked description holds
      the word; a kept path shows the highlighted word, and an item that
      matches by path alone keeps its description. */
  lemma SearchedKeeps(path: string, description: Option<string>, w: string)
    requires w != ""
    ensures var r := Searched(path, description, w);
            (r.kept <==> Contains(path, w) || (description.Some? && Contains(Masked(description.value), w)))
            && (Contains(path, w) ==> Contains(r.path, Highlighted(w)))
            && (!Contains(path, w) ==> r.path == path)
            && (description.None? || !Contains(Masked(description.value), w) ==> r.description == description)
  {
    if Contains(path, w) {
      ReplaceAllShowsRep(path, w, Highlighted(w));
    }
  }

  /** For a description without tags or backslashes and a word without
      backslashes, the masks play no part: the description matches when
      the word occurs in it, and each occurrence is highlighted. */
  lemma SearchedPlain(path: string, d: string, w: string)
    requires w != "" && Symbol !in d && '\\' !in d && '\\' !in w
    ensures var r := Searched(path, Some(d), w);
            r.description == if Contains(d, w) then Some(ReplaceAll(d, w, Highlighted(w))) else Some(d)
  {
    MaskedPlain(d, |ColorKeys|);
    if Contains(d, w) {
      var h := ReplaceAll(d, w, Highlighted(w));
      assert '\\' !in Highlighted(w) by {
        assert Highlighted(w) == Tag(Search) + w + Tag(SearchEnd);
      }
      ReplaceAllKeepsOut(d, w, Highlighted(w), '\\');
      UnmaskedPlain(h, |ColorKeys|);
    }
  }

  /** For a description without backslashes or runs of 21 symbols and an
      accepted word, the search works on the texts between the tags: the
      description matches exactly when the word is in one of those texts,
      and then every tag comes back in its place, with each text between
      them highlighted. */
  lemma SearchedKeepsTags(path: string, d: string, w: string)
    requires w != "" && !Rejected(w) && '\\' !in d && !Contains(d, Repeat(Symbol, 21))
    ensures var c := MaskedCut(d, |ColorKeys|);
            var r := Searched(path, Some(d), w);
            Weave(c, TagOf) == d
            && (Contains(Masked(d), w) <==> exists i :: 0 <= i < |c.texts| && Contains(c.texts[i], w))
            && r.description == Some(if Contains(Masked(d), w) then Weave(HighlightTexts(c, w), TagOf) else d)
  {
    var c := MaskedCut(d, |ColorKeys|);
    MaskedCutFacts(d);
    ContainsWeave(c, w);
    SearchedMasked(path, d, w, c);
  }

  /** The cut the masking loop leaves: its masked string is the masked
      description, its tags put back give the description, and its texts
      hold no backslash and no long symbol run. */
  lemma MaskedCutFacts(d: string)
    requires '\\' !in d && !Contains(d, Repeat(Symbol, 21))
    ensures var c := MaskedCut(d, |ColorKeys|);
            Masked(d) == Weave(c, Mask) && Weave(c, TagOf) == d
            && forall i :: 0 <= i < |c.texts| ==> '\\' !in c.texts[i] && !Contains(c.texts[i], Repeat(Symbol, 21))
  {
    var c := MaskedCut(d, |ColorKeys|);
    MaskedCutFlat(d, |ColorKeys|);
    MaskedCutExpanded(d, |ColorKeys|);
    MaskedCutWithin(d, |ColorKeys|);
    CleanWithin(c, d);
  }

  /** The description the search keeps, in terms of a cut of the masked
      description. */
  lemma SearchedMasked(path: string, d: string, w: string, c: Cut)
    requires w != "" && !Rejected(w) && Shaped(c) && Masked(d) == Weave(c, Mask)
    requires forall i :: 0 <= i < |c.marks| ==> c.marks[i] < |ColorKeys|
    requires forall i :: 0 <= i < |c.texts| ==> '\\' !in c.texts[i] && !Contains(c.texts[i], Repeat(Symbol, 21))
    ensures Searched(path, Some(d), w).description
            == Some(if Contains(Masked(d), w) then Weave(HighlightTexts(c, w), TagOf) else d)
  {
    if Contains(Masked(d), w) {
      HighlightUnmasks(c, w);
    }
  }

  /** Highlighting the masked texts of a cut whose texts hold no backslash
      and no long symbol run, then unmasking, gives the cut's texts
      highlighted between the original tags. */
  lemma HighlightUnmasks(c: Cut, w: string)
    requires Shaped(c) && w != "" && !Rejected(w)
    requires forall i :: 0 <= i < |c.marks| ==> c.marks[i] < |ColorKeys|
    requires forall i :: 0 <= i < |c.texts| ==> '\\' !in c.texts[i] && !Contains(c.texts[i], Repeat(Symbol, 21))
    ensures Unmasked(ReplaceAll(Weave(c, Mask), w, Highlighted(w))) == Weave(HighlightTexts(c, w), TagOf)
  {
    HighlightFlat(c, w);
    var h := HighlightTexts(c, w);
    forall i | 0 <= i < |h.texts| ensures Guarded(h.texts[i]) && !SymbolRun(h.texts[i]) {
      GuardedHighlight(c.texts[i], w);
      NotRunHighlight(c.texts[i], w);
    }
    UnmaskedCleanCut(h);
  }

  /** The items of kind `kind` whose flag is set, in order; `kindOf` reads
      an item's `type`. */
  function Pick<T>(items: seq<T>, flags: seq<bool>, kindOf: T -> string, kind: string): seq<T>
    requires |flags| == |items|
    decreases |items|
  {
    if |items| == 0 then []
    else
      var k := |items| - 1;
      Pick(items[..k], flags[..k], kindOf, kind) + (if flags[k] && kindOf(items[k]) == kind then [items[k]] else [])
  }

  /** An item is picked exactly when some position holds it with its flag
      set and it is of that kind; there are no more picked items than
      items. */
  lemma {:induction false} PickSound<T>(items: seq<T>, flags: seq<bool>, kindOf: T -> string, kind: string)
    requires |flags| == |items|
    ensures |Pick(items, flags, kindOf, kind)| <= |items|
    ensures forall x :: x in Pick(items, flags, kindOf, kind) <==>
              kindOf(x) == kind && exists k :: 0 <= k < |items| && items[k] == x && flags[k]
    decreases |items|
  {
    if |items| > 0 {
      var k := |items| - 1;
      var init := Pick(items[..k], flags[..k], kindOf, kind);
      PickSound(items[..k], flags[..k], kindOf, kind);
      forall x
        ensures x in Pick(items, flags, kindOf, kind) <==>
                  kindOf(x) == kind && exists j :: 0 <= j < |items| && items[j] == x && flags[j]
      {
        if x in init {
          var j :| 0 <= j < k && items[..k][j] == x && flags[..k][j];
          assert items[j] == x && flags[j];
        }
        if kindOf(x) == kind && exists j :: 0 <= j < |items| && items[j] == x && flags[j] {
          var j :| 0 <= j < |items| && items[j] == x && flags[j];
          if j < k {
            assert items[..k][j] == x && flags[..k][j];
          }
        }
      }
    }
  }

  /** One more item picked or not. */
  lemma PickStep<T>(items: seq<T>, flags: seq<bool>, kindOf: T -> string, i: nat, kind: string)
    requires |flags| == |items| && i < |items|
    ensures Pick(items[..i + 1], flags[..i + 1], kindOf, kind)
            == Pick(items[..i], flags[..i], kindOf, kind) + (if flags[i] && kindOf(items[i]) == kind then [items[i]] else [])
  {
    assert items[..i + 1][..i] == items[..i] && flags[..i + 1][..i] == flags[..i];
  }

  /** `item['type']`. */
  function KindOf(item: Visual.Item): string
  {
    item.kind
  }

  /** The paths of the items. */
  function Paths(items: seq<Visual.Item>): seq<string>
    reads set i | i in items
  {
    seq(|items|, k requires 0 <= k < |items| reads items => items[k].path)
  }

  /** The descriptions of the items. */
  function Descriptions(items: seq<Visual.Item>): seq<Option<string>>
    reads set i | i in items
  {
    seq(|items|, k requires 0 <= k < |items| reads items => items[k].description)
  }

  /** Which items the search keeps. */
  function KeptFlags(paths: seq<string>, descriptions: seq<Option<string>>, w: string): (r: seq<bool>)
    requires w != "" && |paths| == |descriptions|
    ensures |r| == |paths|
  {
    seq(|paths|, k requires 0 <= k < |paths| => Searched(paths[k], descriptions[k], w).kept)
  }

  predicate Distinct(items: seq<Visual.Item>)
  {
    forall a, b :: 0 <= a < b < |items| ==> items[a] != items[b]
  }

  // ---------------------------------------------------------------------
  // _search, _limit_file_num, run
  // ---------------------------------------------------------------------

  /** `_search`: an empty word raises at `search_word[-1]`; a refused word
      gives status 1 and no children; otherwise every item is searched and
      updated, and the kept directories and files come out in input order. */
  method SearchChildren(children: Children<Visual.Item>, w: string) returns (status: Option<nat>, out: Children<Visual.Item>)
    requires Distinct(All(children))
    modifies set i | i in All(children)
    ensures w == "" || Rejected(w) ==> forall i :: i in All(children) ==> unchanged(i)
    ensures w == "" ==> status.None?
    ensures w != "" && Rejected(w) ==> status == Some(1) && out == Children([], [])
    ensures w != "" && !Rejected(w) ==>
              var all := All(children);
              var flags := KeptFlags(old(Paths(all)), old(Descriptions(all)), w);
              status == Some(0)
              && out == Children(Pick(all, flags, KindOf, "Dir"), Pick(all, flags, KindOf, "File"))
              && forall k :: 0 <= k < |all| ==>
                   var r := Searched(old(all[k].path), old(all[k].description), w);
                   all[k].path == r.path && all[k].description == r.description
  {
    if w == "" {
      return None, Children([], []);
    }
    if Rejected(w) {
      return Some(1), Children([], []);
    }
    var all := All(children);
    var dirs, files := SearchItems(all, w);
    status, out := Some(0), Children(dirs, files);
  }

  /** The item loop of `_search` over the directories followed by the files. */
  method SearchItems(all: seq<Visual.Item>, w: string) returns (dirs: seq<Visual.Item>, files: seq<Visual.Item>)
    requires w != "" && Distinct(all)
    modifies set i | i in all
    ensures var flags := KeptFlags(old(Paths(all)), old(Descriptions(all)), w);
            dirs == Pick(all, flags, KindOf, "Dir") && files == Pick(all, flags, KindOf, "File")
    ensures forall k :: 0 <= k < |all| ==>
              var r := Searched(old(all[k].path), old(all[k].description), w);
              all[k].path == r.path && all[k].description == r.description
  {
    ghost var paths, descriptions := Paths(all), Descriptions(all);
    ghost var flags := KeptFlags(paths, descriptions, w);
    dirs, files := [], [];
    for i := 0 to |all|
      invariant forall k :: 0 <= k < i ==>
                  var r := Searched(paths[k], descriptions[k], w);
                  all[k].path == r.path && all[k].description == r.description
      invariant forall k :: i <= k < |all| ==> all[k].path == paths[k] && all[k].description == descriptions[k]
      invariant dirs == Pick(all[..i], flags[..i], KindOf, "Dir") && files == Pick(all[..i], flags[..i], KindOf, "File")
    {
      var item := all[i];
      var kept := Visit(item, w);
      assert kept == flags[i];
      PickStep(all, flags, KindOf, i, "Dir");
      PickStep(all, flags, KindOf, i, "File");
      if kept {
        if item.kind == "Dir" {
          dirs := dirs + [item];
        } else if item.kind == "File" {
          files := files + [item];
        }
      }
    }
    assert all[..|all|] == all && flags[..|all|] == flags;
  }

  /** The body of the item loop: the item searched and, when kept, updated. */
  method Visit(item: Visual.Item, w: string) returns (kept: bool)
    requires w != ""
    modifies item
    ensures var r := Searched(old(item.path), old(item.description), w);
            kept == r.kept && item.path == r.path && item.description == r.description
  {
    var r := SearchItem(item.path, item.description, w);
    kept := r.kept;
    if kept {
      item.path, item.description := r.path, r.description;
    }
  }

  /** The item loop's work on the item's strings. */
  method SearchItem(path: string, description: Option<string>, w: string) returns (r: Outcome)
    requires w != ""
    ensures r == Searched(path, description, w)
  {
    var matchPath := Contains(path, w);
    var masked := "";
    var matchDesc := false;
    if description.Some? {
      masked := MaskTags(description.value);
      matchDesc := Contains(masked, w);
    }
    r := Outcome(matchPath || matchDesc, path, description);
    if matchPath {
      r := r.(path := ReplaceAll(path, w, Highlighted(w)));
    }
    if matchDesc {
      var d := UnmaskTags(ReplaceAll(masked, w, Highlighted(w)));
      r := r.(description := Some(d));
    }
  }

  /** The loop that hides every tag of the table behind its mask. */
  method MaskTags(d: string) returns (masked: string)
    ensures masked == Masked(d)
  {
    masked := d;
    for k := 0 to |ColorKeys|
      invariant masked == MaskedUpTo(d, k)
    {
      TagsAreMarkers(ColorKeys[k]);
      masked := ReplaceAll(masked, Tag(ColorKeys[k]), Mask(k));
    }
  }

  /** The loop that turns every mask back into its tag. */
  method UnmaskTags(d: string) returns (r: string)
    ensures r == Unmasked(d)
  {
    r := d;
    for k := 0 to |ColorKeys|
      invariant r == UnmaskedUpTo(d, k)
    {
      r := ReplaceAll(r, Mask(k), Tag(ColorKeys[k]));
    }
  }

  /** `res.lower() in ['y', 'yes']`. */
  predicate Agrees(reply: string)
  {
    Lower(reply) == "y" || Lower(reply) == "yes"
  }

  /** `_limit_file_num`, with the answer to the prompt as a parameter:
      status 0 and the children when there are at most `limit` items;
      otherwise status 1 and the children on a yes, status 2 and no
      children on anything else. */
  function LimitFileNum<T>(children: Children<T>, limit: int, reply: string): (r: (nat, Children<T>))
    ensures r.0 == 0 <==> |All(children)| <= limit
    ensures r.0 == 1 <==> |All(children)| > limit && Agrees(reply)
    ensures r.0 != 2 ==> r.1 == children
    ensures r.0 == 2 ==> r.1 == Children([], [])
    ensures r.0 <= 2
  {
    if |All(children)| <= limit then (0, children)
    else if Agrees(reply) then (1, children)
    else (2, Children([], []))
  }

  /** `run`: the search when the word is not empty, the limit when it is
      not zero, status 0 whatever they return. */
  method Run(children: Children<Visual.Item>, w: string, limit: int, reply: string) returns (status: nat, out: Children<Visual.Item>)
    requires Distinct(All(children))
    modifies set i | i in All(children)
    ensures status == 0
    ensures w == "" ==> (forall i :: i in All(children) ==> unchanged(i))
                        && out == if limit != 0 then LimitFileNum(children, limit, reply).1 else children
    ensures w != "" ==>
              var all := All(children);
              var flags := KeptFlags(old(Paths(all)), old(Descriptions(all)), w);
              var found := if Rejected(w) then Children([], [])
                           else Children(Pick(all, flags, KindOf, "Dir"), Pick(all, flags, KindOf, "File"));
              out == if limit != 0 then LimitFileNum(found, limit, reply).1 else found
    ensures w != "" && Rejected(w) ==> forall i :: i in All(children) ==> unchanged(i)
    ensures w != "" && !Rejected(w) ==>
              var all := All(children);
              forall k :: 0 <= k < |all| ==>
                var r := Searched(old(all[k].path), old(all[k].description), w);
                all[k].path == r.path && all[k].description == r.description
  {
    out := children;
    if w != "" {
      var s;
      s, out := SearchChildren(children, w);
    }
    if limit != 0 {
      var r := LimitFileNum(out, limit, reply);
      out := r.1;
    }
    status := 0;
  }
}
