/** Literal string operations the whole model relies on: the regex crate's
    `replace_all` with a literal pattern (leftmost, non-overlapping), Rust and
    Python `split`, `join`, Rust `str::trim`, Python `in` and `str.lower`. */
module Strings {

  /** The escape introducer, U+001B. */
  const Esc: char := '\U{1B}'

  /** `pat` starts at offset `i` of `s`. */
  predicate OccursAt(s: string, pat: string, i: int)
  {
    0 <= i && i + |pat| <= |s| && s[i..i + |pat|] == pat
  }

  /** Substring test: Python `pat in s`, Rust `s.contains(pat)`. */
  predicate Contains(s: string, pat: string)
    decreases |s|
  {
    pat <= s || (|s| > 0 && Contains(s[1..], pat))
  }

  /** Every occurrence of the non-empty `pat` found by a left-to-right scan
      that resumes after each match, replaced by `rep`. */
  function ReplaceAll(s: string, pat: string, rep: string): string
    requires |pat| > 0
    decreases |s|
  {
    if pat <= s then rep + ReplaceAll(s[|pat|..], pat, rep)
    else if |s| == 0 then ""
    else [s[0]] + ReplaceAll(s[1..], pat, rep)
  }

  /** Python `s.split(sep)` for a non-empty separator: the pieces between the
      occurrences found by the same scan as `ReplaceAll`. */
  function SplitOn(s: string, sep: string): (r: seq<string>)
    requires |sep| > 0
    ensures |r| > 0
    decreases |s|
  {
    if sep <= s then [""] + SplitOn(s[|sep|..], sep)
    else if |s| == 0 then [""]
    else
      var rest := SplitOn(s[1..], sep);
      [[s[0]] + rest[0]] + rest[1..]
  }

  /** Rust `s.split(c)` and Python `s.split(c)` on one character. */
  function Split(s: string, c: char): (r: seq<string>)
    ensures |r| > 0
  {
    SplitOn(s, [c])
  }

  /** Python `sep.join(xs)`. */
  function Join(xs: seq<string>, sep: string): string
  {
    if |xs| == 0 then ""
    else if |xs| == 1 then xs[0]
    else xs[0] + sep + Join(xs[1..], sep)
  }

  /** Number of occurrences of `c` in `s`. */
  function Count(s: string, c: char): nat
  {
    if |s| == 0 then 0 else (if s[0] == c then 1 else 0) + Count(s[1..], c)
  }

  /** `n` copies of `c` (Rust `" ".repeat(n)`, Python `' '*n`). */
  function Repeat(c: char, n: nat): (r: string)
    ensures |r| == n && forall i :: 0 <= i < n ==> r[i] == c
  {
    if n == 0 then "" else [c] + Repeat(c, n - 1)
  }

  /** Unicode White_Space, the set Rust's `char::is_whitespace` tests. */
  predicate IsWhitespace(c: char)
  {
    ('\t' <= c <= '\r') || c == ' ' || c == '\U{85}' || c == '\U{A0}' || c == '\U{1680}'
    || ('\U{2000}' <= c <= '\U{200A}') || c == '\U{2028}' || c == '\U{2029}'
    || c == '\U{202F}' || c == '\U{205F}' || c == '\U{3000}'
  }

  predicate AllWhitespace(s: string)
  {
    forall i :: 0 <= i < |s| ==> IsWhitespace(s[i])
  }

  function TrimStart(s: string): (r: string)
    ensures |r| <= |s| && r == s[|s| - |r|..]
    ensures AllWhitespace(s[..|s| - |r|])
    ensures |r| > 0 ==> !IsWhitespace(r[0])
  {
    if |s| > 0 && IsWhitespace(s[0]) then TrimStart(s[1..]) else s
  }

  function TrimEnd(s: string): (r: string)
    ensures |r| <= |s| && r == s[..|r|]
    ensures AllWhitespace(s[|r|..])
    ensures |r| > 0 ==> !IsWhitespace(r[|r| - 1])
  {
    if |s| > 0 && IsWhitespace(s[|s| - 1]) then TrimEnd(s[..|s| - 1]) else s
  }

  /** Rust `str::trim`: `s` without its leading and trailing white space.
      The result is the middle of `s`, what is cut off is all white space, and
      the result neither starts nor ends with white space. */
  function Trim(s: string): (r: string)
    ensures exists i :: TrimCut(s, r, i)
    ensures |r| > 0 ==> !IsWhitespace(r[0]) && !IsWhitespace(r[|r| - 1])
  {
    var e := TrimEnd(s);
    var r := TrimStart(e);
    assert r == s[|e| - |r|..|e|];
    assert s[..|e| - |r|] == e[..|e| - |r|];
    assert s[|e|..] == s[|e| - |r| + |r|..];
    assert TrimCut(s, r, |e| - |r|);
    r
  }

  /** `r` is `s` with the white space `s[..i]` and the white space after `r` cut off. */
  predicate TrimCut(s: string, r: string, i: int)
  {
    0 <= i && i + |r| <= |s| && s[i..i + |r|] == r
    && AllWhitespace(s[..i]) && AllWhitespace(s[i + |r|..])
  }

  /** Python `str.lower` on the ASCII letters. */
  function LowerChar(c: char): char
  {
    if 'A' <= c <= 'Z' then (c as int + 32) as char else c
  }

  function Lower(s: string): (r: string)
    ensures |r| == |s| && forall i :: 0 <= i < |s| ==> r[i] == LowerChar(s[i])
  {
    if |s| == 0 then "" else [LowerChar(s[0])] + Lower(s[1..])
  }

  // ---------------------------------------------------------------------
  // Properties of the scan
  // ---------------------------------------------------------------------

  /** `Contains` is the existence of an offset where `pat` starts. */
  lemma {:induction false} ContainsAt(s: string, pat: string)
    ensures Contains(s, pat) <==> exists i :: OccursAt(s, pat, i)
  {
    if pat <= s {
      assert s[0..|pat|] == pat;
      assert OccursAt(s, pat, 0);
    } else if |s| > 0 {
      ContainsAt(s[1..], pat);
      assert OccursAt(s, pat, 0) ==> pat <= s;
      if exists i :: OccursAt(s, pat, i) {
        var i :| OccursAt(s, pat, i);
        assert s[1..][i - 1..i - 1 + |pat|] == pat;
        assert OccursAt(s[1..], pat, i - 1);
      }
      if Contains(s[1..], pat) {
        var i :| OccursAt(s[1..], pat, i);
        assert s[i + 1..i + 1 + |pat|] == pat;
        assert OccursAt(s, pat, i + 1);
      }
    } else {
      assert forall i :: OccursAt(s, pat, i) ==> pat <= s;
    }
  }

  /** A pattern can only occur where its first character does. */
  lemma ContainsNeedsFirstChar(s: string, pat: string)
    requires |pat| > 0 && pat[0] !in s
    ensures !Contains(s, pat)
  {
    ContainsAt(s, pat);
    forall i | 0 <= i ensures !OccursAt(s, pat, i) {
      if i < |s| { assert s[i] in s; }
    }
  }

  /** Replacing a pattern that does not occur changes nothing. */
  lemma {:induction false} ReplaceAllAbsent(s: string, pat: string, rep: string)
    requires |pat| > 0 && !Contains(s, pat)
    ensures ReplaceAll(s, pat, rep) == s
  {
    if |s| > 0 {
      ReplaceAllAbsent(s[1..], pat, rep);
    }
  }

  /** `replace_all` is `join` of the pieces `split` yields, with `rep` between. */
  lemma {:induction false} ReplaceAllIsJoinOfSplit(s: string, pat: string, rep: string)
    requires |pat| > 0
    ensures ReplaceAll(s, pat, rep) == Join(SplitOn(s, pat), rep)
    decreases |s|
  {
    if pat <= s {
      ReplaceAllIsJoinOfSplit(s[|pat|..], pat, rep);
      JoinEmptyHead(SplitOn(s[|pat|..], pat), rep);
    } else if |s| > 0 {
      ReplaceAllIsJoinOfSplit(s[1..], pat, rep);
      JoinLongerHead(s[0], SplitOn(s[1..], pat), rep);
    }
  }

  /** An empty first piece leaves the separator at the front. */
  lemma JoinEmptyHead(xs: seq<string>, sep: string)
    requires |xs| > 0
    ensures Join([""] + xs, sep) == sep + Join(xs, sep)
  {
    assert ([""] + xs)[1..] == xs;
  }

  /** A character put in front of the first piece comes out in front. */
  lemma JoinLongerHead(x: char, xs: seq<string>, sep: string)
    requires |xs| > 0
    ensures Join([[x] + xs[0]] + xs[1..], sep) == [x] + Join(xs, sep)
  {
    if |xs| > 1 {
      assert ([[x] + xs[0]] + xs[1..])[1..] == xs[1..];
    }
  }

  /** Splitting and joining back with the separator is the identity. */
  lemma SplitJoin(s: string, sep: string)
    requires |sep| > 0
    ensures Join(SplitOn(s, sep), sep) == s
  {
    ReplaceAllIsJoinOfSplit(s, sep, sep);
    ReplaceAllSelf(s, sep);
  }

  lemma {:induction false} ReplaceAllSelf(s: string, pat: string)
    requires |pat| > 0
    ensures ReplaceAll(s, pat, pat) == s
    decreases |s|
  {
    if pat <= s {
      ReplaceAllSelf(s[|pat|..], pat);
      assert s == pat + s[|pat|..];
    } else if |s| > 0 {
      ReplaceAllSelf(s[1..], pat);
      assert s == [s[0]] + s[1..];
    }
  }

  /** One piece exactly when the separator does not occur. */
  lemma {:induction false} SplitOnSingle(s: string, sep: string)
    requires |sep| > 0
    ensures |SplitOn(s, sep)| == 1 <==> !Contains(s, sep)
    ensures !Contains(s, sep) ==> SplitOn(s, sep) == [s]
    decreases |s|
  {
    if sep <= s {
      assert |SplitOn(s, sep)| >= 2;
    } else if |s| > 0 {
      SplitOnSingle(s[1..], sep);
      assert s == [s[0]] + s[1..];
    }
  }

  /** An occurrence in a suffix is an occurrence in the whole text, shifted
      by where the suffix starts. */
  lemma OccursShift(s: string, pat: string, d: nat, q: int)
    requires d <= |s|
    ensures OccursAt(s[d..], pat, q) <==> 0 <= q && OccursAt(s, pat, q + d)
  {
    if 0 <= q && q + d + |pat| <= |s| {
      assert s[d..][q..q + |pat|] == s[q + d..q + d + |pat|];
    }
  }

  /** The first piece of `split` ends where the leftmost occurrence of the
      separator starts, and no occurrence starts inside it; the other
      pieces are the split of what follows that occurrence. With one
      piece, the separator does not occur at all. */
  lemma SplitHead(s: string, sep: string)
    requires |sep| > 0
    ensures var parts := SplitOn(s, sep);
            (forall p :: 0 <= p < |parts[0]| ==> !OccursAt(s, sep, p))
            && (|parts| == 1 ==> s == parts[0] && forall p :: !OccursAt(s, sep, p))
            && (|parts| > 1 ==> OccursAt(s, sep, |parts[0]|)
                                && SplitOn(s[|parts[0]| + |sep|..], sep) == parts[1..])
  {
    SplitHeadFirst(s, sep);
    SplitHeadOnly(s, sep);
    SplitHeadRest(s, sep);
  }

  /** The separator occurs nowhere inside the first piece. */
  lemma {:induction false} SplitHeadFirst(s: string, sep: string)
    requires |sep| > 0
    ensures forall p :: 0 <= p < |SplitOn(s, sep)[0]| ==> !OccursAt(s, sep, p)
    decreases |s|
  {
    if !(sep <= s) && |s| > 0 {
      var rest := SplitOn(s[1..], sep);
      SplitHeadFirst(s[1..], sep);
      assert SplitOn(s, sep)[0] == [s[0]] + rest[0];
      SkipFront(s, sep, rest[0]);
    }
  }

  /** A single piece is the whole string, and the separator occurs nowhere. */
  lemma {:induction false} SplitHeadOnly(s: string, sep: string)
    requires |sep| > 0
    ensures var parts := SplitOn(s, sep);
            |parts| == 1 ==> s == parts[0] && forall p :: !OccursAt(s, sep, p)
    decreases |s|
  {
    if !(sep <= s) && |s| > 0 {
      var rest := SplitOn(s[1..], sep);
      SplitHeadOnly(s[1..], sep);
      var parts := SplitOn(s, sep);
      assert parts[0] == [s[0]] + rest[0] && |parts| == |rest|;
      if |parts| == 1 {
        SkipNone(s, sep);
        assert s == [s[0]] + s[1..];
      }
    }
  }

  /** With more than one piece, the separator follows the first piece and
      the rest splits into the other pieces. */
  lemma {:induction false} SplitHeadRest(s: string, sep: string)
    requires |sep| > 0
    ensures var parts := SplitOn(s, sep);
            |parts| > 1 ==> OccursAt(s, sep, |parts[0]|)
                            && SplitOn(s[|parts[0]| + |sep|..], sep) == parts[1..]
    decreases |s|, 1
  {
    if sep <= s {
      assert s[0..|sep|] == sep;
      SplitFrontPieces(s, sep);
    } else if |s| > 0 {
      SplitRestSkip(s, sep);
    }
  }

  /** A separator at the front: an empty first piece, then the pieces of
      what follows it. */
  lemma SplitFrontPieces(s: string, sep: string)
    requires |sep| > 0 && sep <= s
    ensures var parts := SplitOn(s, sep);
            |parts[0]| == 0 && SplitOn(s[|parts[0]| + |sep|..], sep) == parts[1..]
  {
    var parts := SplitOn(s, sep);
    assert parts == [""] + SplitOn(s[|sep|..], sep);
  }

  /** `SplitHeadRest` when the separator does not start the string. */
  lemma {:induction false} SplitRestSkip(s: string, sep: string)
    requires |sep| > 0 && |s| > 0 && !(sep <= s)
    ensures var parts := SplitOn(s, sep);
            |parts| > 1 ==> OccursAt(s, sep, |parts[0]|)
                            && SplitOn(s[|parts[0]| + |sep|..], sep) == parts[1..]
    decreases |s|, 0
  {
    var rest := SplitOn(s[1..], sep);
    SplitHeadRest(s[1..], sep);
    SplitSkipShape(s, sep);
    if |rest| > 1 {
      SkipLaterPieces(s, sep, |rest[0]|, SplitOn(s, sep), rest[1..]);
    }
  }

  /** Where the separator does not start the string, the first character
      joins the first piece of the rest. */
  lemma SplitSkipShape(s: string, sep: string)
    requires |sep| > 0 && |s| > 0 && !(sep <= s)
    ensures var parts := SplitOn(s, sep);
            var rest := SplitOn(s[1..], sep);
            |parts| == |rest| && |parts[0]| == |rest[0]| + 1 && parts[1..] == rest[1..]
  {
  }

  /** `SkipLater` in terms of the pieces. */
  lemma SkipLaterPieces(s: string, sep: string, q: nat, parts: seq<string>, tail: seq<string>)
    requires |s| > 0 && |sep| > 0 && |parts| > 0 && |parts[0]| == q + 1 && parts[1..] == tail
    requires OccursAt(s[1..], sep, q) && SplitOn(s[1..][q + |sep|..], sep) == tail
    ensures OccursAt(s, sep, |parts[0]|) && SplitOn(s[|parts[0]| + |sep|..], sep) == parts[1..]
  {
    var i := |parts[0]| + |sep|;
    assert i == q + 1 + |sep|;
    SkipLater(s, sep, q, tail);
    assert s[i..] == s[q + 1 + |sep|..];
  }

  /** No occurrence at the first character nor before `r0` ends in the rest. */
  lemma SkipFront(s: string, sep: string, r0: string)
    requires |sep| > 0 && |s| > 0 && !(sep <= s)
    requires forall p :: 0 <= p < |r0| ==> !OccursAt(s[1..], sep, p)
    ensures forall p :: 0 <= p < |r0| + 1 ==> !OccursAt(s, sep, p)
  {
    forall p | 0 <= p < |r0| + 1 ensures !OccursAt(s, sep, p) {
      if p > 0 {
        OccursShift(s, sep, 1, p - 1);
      } else if |sep| <= |s| {
        assert s[0..|sep|] == s[..|sep|];
      }
    }
  }

  /** No occurrence in the rest and none at the front: none at all. */
  lemma SkipNone(s: string, sep: string)
    requires |sep| > 0 && |s| > 0 && !(sep <= s)
    requires forall p :: !OccursAt(s[1..], sep, p)
    ensures forall p :: !OccursAt(s, sep, p)
  {
    forall p ensures !OccursAt(s, sep, p) {
      if p > 0 {
        OccursShift(s, sep, 1, p - 1);
      } else if p == 0 && |sep| <= |s| {
        assert s[0..|sep|] == s[..|sep|];
      }
    }
  }

  /** The first occurrence in the rest is one further on in the whole. */
  lemma SkipLater(s: string, sep: string, q: nat, tail: seq<string>)
    requires |s| > 0 && OccursAt(s[1..], sep, q) && |sep| > 0
    requires SplitOn(s[1..][q + |sep|..], sep) == tail
    ensures OccursAt(s, sep, q + 1) && SplitOn(s[q + 1 + |sep|..], sep) == tail
  {
    OccursShift(s, sep, 1, q);
    assert s[1..][q + |sep|..] == s[q + 1 + |sep|..];
  }

  /** Each character of an occurrence is the pattern's. */
  lemma OccursChar(s: string, pat: string, j: int, q: int)
    requires OccursAt(s, pat, j) && 0 <= q < |pat|
    ensures s[j + q] == pat[q]
  {
    assert s[j..j + |pat|][q] == s[j + q];
  }

  /** What occurs in a suffix occurs in the whole text. */
  lemma ContainsInSuffix(s: string, d: nat, p: string)
    requires d <= |s| && Contains(s[d..], p)
    ensures Contains(s, p)
  {
    ContainsAt(s[d..], p);
    ContainsAt(s, p);
    var o :| OccursAt(s[d..], p, o);
    OccursShift(s, p, d, o);
  }

  /** Occurring in a part of the text is occurring in the text. */
  lemma ContainsTrans(s: string, p: string, q: string)
    requires Contains(s, p) && Contains(p, q)
    ensures Contains(s, q)
  {
    ContainsAt(s, p);
    ContainsAt(p, q);
    ContainsAt(s, q);
    var o :| OccursAt(s, p, o);
    var o' :| OccursAt(p, q, o');
    forall x | 0 <= x < |q| ensures s[o + o' + x] == q[x] {
      OccursChar(p, q, o', x);
      OccursChar(s, p, o, o' + x);
    }
    assert s[o + o'..o + o' + |q|] == q;
    assert OccursAt(s, q, o + o');
  }

  /** A character of a part of the text is a character of the text. */
  lemma CharWithin(s: string, p: string, c: char)
    requires Contains(s, p) && c in p
    ensures c in s
  {
    ContainsAt(s, p);
    var o :| OccursAt(s, p, o);
    var i :| 0 <= i < |p| && p[i] == c;
    OccursChar(s, p, o, i);
  }

  /** The first piece of `split` is a prefix of the text. */
  lemma {:induction false} SplitFirstPrefix(s: string, sep: string)
    requires |sep| > 0
    ensures SplitOn(s, sep)[0] <= s
    decreases |s|
  {
    if !(sep <= s) && |s| > 0 {
      var rest := SplitOn(s[1..], sep);
      SplitFirstPrefix(s[1..], sep);
      assert SplitOn(s, sep)[0] == [s[0]] + rest[0];
      assert s == [s[0]] + s[1..];
    }
  }

  /** Every piece of `split` is a part of the text. */
  lemma {:induction false} SplitPiecesWithin(s: string, sep: string)
    requires |sep| > 0
    ensures forall i :: 0 <= i < |SplitOn(s, sep)| ==> Contains(s, SplitOn(s, sep)[i])
    decreases |s|
  {
    var parts := SplitOn(s, sep);
    SplitHead(s, sep);
    SplitFirstPrefix(s, sep);
    if |parts| > 1 {
      var d := |parts[0]| + |sep|;
      SplitPiecesWithin(s[d..], sep);
      forall i | 1 <= i < |parts| ensures Contains(s, parts[i]) {
        assert parts[i] == SplitOn(s[d..], sep)[i - 1];
        ContainsInSuffix(s, d, parts[i]);
      }
    }
  }

  /** No occurrence of `pat` that starts in `a` runs into `b`. */
  predicate EndsWithin(a: string, b: string, pat: string)
  {
    forall j :: 0 <= j < |a| && OccursAt(a + b, pat, j) ==> j + |pat| <= |a|
  }

  /** Dropping the first `d` characters of `a` keeps that. */
  lemma EndsWithinShift(a: string, b: string, pat: string, d: nat)
    requires d <= |a| && EndsWithin(a, b, pat)
    ensures EndsWithin(a[d..], b, pat)
  {
    assert (a + b)[d..] == a[d..] + b;
    forall j | 0 <= j < |a| - d && OccursAt(a[d..] + b, pat, j) ensures j + |pat| <= |a| - d {
      OccursShift(a + b, pat, d, j);
    }
  }

  /** `replace_all` works on the two halves of a text apart when no
      occurrence that starts in the first half runs into the second. */
  lemma {:induction false} ReplaceAllConcat(a: string, b: string, pat: string, rep: string)
    requires |pat| > 0 && EndsWithin(a, b, pat)
    ensures ReplaceAll(a + b, pat, rep) == ReplaceAll(a, pat, rep) + ReplaceAll(b, pat, rep)
    decreases |a|
  {
    var s := a + b;
    if |a| == 0 {
      assert s == b;
    } else if pat <= s {
      assert s[0..|pat|] == pat;
      assert OccursAt(s, pat, 0);
      assert a[..|pat|] == s[..|pat|];
      assert s[|pat|..] == a[|pat|..] + b;
      EndsWithinShift(a, b, pat, |pat|);
      ReplaceAllConcat(a[|pat|..], b, pat, rep);
    } else {
      assert !(pat <= a);
      assert s[1..] == a[1..] + b;
      EndsWithinShift(a, b, pat, 1);
      ReplaceAllConcat(a[1..], b, pat, rep);
    }
  }

  /** No occurrence of `pat` starts in `a`. */
  predicate NoneStartIn(a: string, b: string, pat: string)
  {
    forall j :: 0 <= j < |a| ==> !OccursAt(a + b, pat, j)
  }

  /** A head in which no occurrence starts is kept as it is. */
  lemma ReplaceAllSkip(a: string, b: string, pat: string, rep: string)
    requires |pat| > 0 && NoneStartIn(a, b, pat)
    ensures ReplaceAll(a + b, pat, rep) == a + ReplaceAll(b, pat, rep)
  {
    ReplaceAllConcat(a, b, pat, rep);
    assert !Contains(a, pat) by {
      NoneStartInPrefix(a, b, pat);
    }
    ReplaceAllAbsent(a, pat, rep);
  }

  /** No occurrence starting in `a` means none inside `a` alone. */
  lemma NoneStartInPrefix(a: string, b: string, pat: string)
    requires |pat| > 0 && NoneStartIn(a, b, pat)
    ensures !Contains(a, pat)
  {
    ContainsAt(a, pat);
    forall j ensures !OccursAt(a, pat, j) {
      if 0 <= j < |a| && j + |pat| <= |a| {
        assert (a + b)[j..j + |pat|] == a[j..j + |pat|];
        assert !OccursAt(a + b, pat, j);
      }
    }
  }


  /** Counting distributes over concatenation. */
  lemma {:induction false} CountConcat(a: string, b: string, c: char)
    ensures Count(a + b, c) == Count(a, c) + Count(b, c)
  {
    if |a| > 0 {
      CountConcat(a[1..], b, c);
      assert (a + b)[1..] == a[1..] + b;
    } else {
      assert a + b == b;
    }
  }

  /** A text without `c` counts no `c`. */
  lemma {:induction false} CountAbsent(s: string, c: char)
    requires c !in s
    ensures Count(s, c) == 0
  {
    if |s| > 0 {
      assert c !in s[1..] by {
        forall k | 0 <= k < |s| - 1 ensures s[1..][k] != c { assert s[1..][k] == s[k + 1]; }
      }
      CountAbsent(s[1..], c);
    }
  }

  /** Splitting on a character gives one piece more than there are
      occurrences of it, and no piece contains it. */
  lemma {:induction false} SplitCount(s: string, c: char)
    ensures |Split(s, c)| == Count(s, c) + 1
    ensures forall k :: 0 <= k < |Split(s, c)| ==> c !in Split(s, c)[k]
  {
    if |s| > 0 {
      SplitCount(s[1..], c);
      if s[0] == c {
        assert [c] <= s;
      } else {
        assert !([c] <= s);
        var rest := Split(s[1..], c);
        assert Split(s, c) == [[s[0]] + rest[0]] + rest[1..];
        forall k | 0 <= k < |Split(s, c)| ensures c !in Split(s, c)[k] {
          if k > 0 { assert Split(s, c)[k] == rest[k]; }
        }
      }
    }
  }

  /** Joining grows at the end: what a loop appending one piece at a time builds. */
  lemma {:induction false} JoinSnoc(xs: seq<string>, x: string, sep: string)
    ensures Join(xs + [x], sep) == if |xs| == 0 then x else Join(xs, sep) + sep + x
  {
    if |xs| > 1 {
      assert (xs + [x])[1..] == xs[1..] + [x];
      JoinSnoc(xs[1..], x, sep);
    } else if |xs| == 1 {
      assert xs + [x] == [xs[0], x];
    }
  }

  /** The output of `ReplaceAll` starts with `rep` when `pat` starts the input. */
  lemma ReplaceAllHead(s: string, pat: string, rep: string)
    requires |pat| > 0 && |rep| > 0
    ensures pat <= s ==> |ReplaceAll(s, pat, rep)| > 0 && ReplaceAll(s, pat, rep)[0] in rep
  {
    if pat <= s {
      assert ReplaceAll(s, pat, rep)[0] == rep[0];
    }
  }

  /** If the first `k` characters of the output of `ReplaceAll` contain no
      character of a non-empty `rep`, they were copied from the input. */
  lemma {:induction false} ReplaceAllKeepsPrefix(s: string, pat: string, rep: string, k: nat)
    requires |pat| > 0 && |rep| > 0
    requires k <= |ReplaceAll(s, pat, rep)|
    requires forall j :: 0 <= j < k ==> ReplaceAll(s, pat, rep)[j] !in rep
    ensures k <= |s| && ReplaceAll(s, pat, rep)[..k] == s[..k]
    decreases |s|
  {
    if k > 0 {
      ReplaceAllHead(s, pat, rep);
      assert ReplaceAll(s, pat, rep)[0] !in rep;
      var t := ReplaceAll(s[1..], pat, rep);
      assert ReplaceAll(s, pat, rep) == [s[0]] + t;
      forall j | 0 <= j < k - 1 ensures t[j] !in rep {
        assert t[j] == ReplaceAll(s, pat, rep)[j + 1];
      }
      ReplaceAllKeepsPrefix(s[1..], pat, rep, k - 1);
    }
  }

  /** `pat` cannot start inside a `rep` that shares no character with it. */
  lemma {:induction false} NoMatchAfterRep(rep: string, t: string, pat: string)
    requires |pat| > 0
    requires forall c :: c in rep ==> c !in pat
    requires !Contains(t, pat)
    ensures !Contains(rep + t, pat)
    decreases |rep|
  {
    if |rep| > 0 {
      var r := rep + t;
      assert r[0] == rep[0] && rep[0] in rep;
      assert pat[0] in pat;
      assert r[1..] == rep[1..] + t;
      forall c | c in rep[1..] ensures c !in pat {
        assert c in rep;
      }
      NoMatchAfterRep(rep[1..], t, pat);
    } else {
      assert rep + t == t;
    }
  }

  /** A character the scan kept cannot start an occurrence in the output. */
  lemma NoMatchAfterKeptChar(s: string, pat: string, rep: string)
    requires |pat| > 0 && |rep| > 0 && |s| > 0 && !(pat <= s)
    requires forall c :: c in rep ==> c !in pat
    requires !Contains(ReplaceAll(s[1..], pat, rep), pat)
    ensures !Contains([s[0]] + ReplaceAll(s[1..], pat, rep), pat)
  {
    var t := ReplaceAll(s[1..], pat, rep);
    var r := [s[0]] + t;
    assert r[1..] == t;
    if pat <= r {
      var n := |pat| - 1;
      forall j | 0 <= j < n ensures t[j] !in rep {
        assert t[j] == r[j + 1] == pat[j + 1] && pat[j + 1] in pat;
      }
      KeptCharMatch(s, pat, rep);
      assert false;
    }
  }

  /** A match at the front of the kept character and the replaced rest,
      whose first `|pat| - 1` characters hold nothing of `rep`, is a match at
      the front of `s`. */
  lemma KeptCharMatch(s: string, pat: string, rep: string)
    requires |pat| > 0 && |rep| > 0 && |s| > 0
    requires pat <= [s[0]] + ReplaceAll(s[1..], pat, rep)
    requires forall j :: 0 <= j < |pat| - 1 ==> ReplaceAll(s[1..], pat, rep)[j] !in rep
    ensures pat <= s
  {
    var t := ReplaceAll(s[1..], pat, rep);
    var n := |pat| - 1;
    ReplaceAllKeepsPrefix(s[1..], pat, rep, n);
    SamePrefixAfterHead(s, pat, t);
  }

  /** `pat` at the front of `[s[0]] + t`, where `t` agrees with the rest of
      `s` on the `|pat| - 1` characters that matter, is at the front of `s`. */
  lemma SamePrefixAfterHead(s: string, pat: string, t: string)
    requires |pat| > 0 && |s| > 0 && pat <= [s[0]] + t
    requires |pat| - 1 <= |s| - 1 && t[..|pat| - 1] == s[1..][..|pat| - 1]
    ensures pat <= s
  {
    var n := |pat| - 1;
    calc {
      pat;
      ([s[0]] + t)[..|pat|];
      [s[0]] + t[..n];
      [s[0]] + s[1..][..n];
      s[..|pat|];
    }
  }

  /** When `rep` is non-empty and shares no character with `pat`, no
      occurrence of `pat` survives `ReplaceAll`. */
  lemma {:induction false} ReplaceAllRemovesPattern(s: string, pat: string, rep: string)
    requires |pat| > 0 && |rep| > 0
    requires forall c :: c in rep ==> c !in pat
    ensures !Contains(ReplaceAll(s, pat, rep), pat)
    decreases |s|
  {
    if pat <= s {
      ReplaceAllRemovesPattern(s[|pat|..], pat, rep);
      NoMatchAfterRep(rep, ReplaceAll(s[|pat|..], pat, rep), pat);
    } else if |s| > 0 {
      ReplaceAllRemovesPattern(s[1..], pat, rep);
      NoMatchAfterKeptChar(s, pat, rep);
    }
  }

  /** Under the same conditions, a second `ReplaceAll` changes nothing. */
  lemma ReplaceAllIdempotent(s: string, pat: string, rep: string)
    requires |pat| > 0 && |rep| > 0
    requires forall c :: c in rep ==> c !in pat
    ensures ReplaceAll(ReplaceAll(s, pat, rep), pat, rep) == ReplaceAll(s, pat, rep)
  {
    ReplaceAllRemovesPattern(s, pat, rep);
    ReplaceAllAbsent(ReplaceAll(s, pat, rep), pat, rep);
  }

  /** Joining pieces that hold no `c` counts one `sep`'s worth of `c`
      between each two pieces. */
  lemma {:induction false} CountJoin(xs: seq<string>, sep: string, c: char)
    requires |xs| > 0 && forall k :: 0 <= k < |xs| ==> c !in xs[k]
    ensures Count(Join(xs, sep), c) == (|xs| - 1) * Count(sep, c)
    decreases |xs|
  {
    CountAbsent(xs[0], c);
    if |xs| > 1 {
      CountJoin(xs[1..], sep, c);
      CountConcat(xs[0], sep, c);
      CountConcat(xs[0] + sep, Join(xs[1..], sep), c);
    }
  }

  /** A shorter replacement never lengthens the text, and shortens it
      exactly when the pattern occurs. */
  lemma {:induction false} ReplaceAllShrinks(s: string, pat: string, rep: string)
    requires |rep| < |pat|
    ensures |ReplaceAll(s, pat, rep)| <= |s|
    ensures |ReplaceAll(s, pat, rep)| < |s| <==> Contains(s, pat)
    decreases |s|
  {
    if pat <= s {
      ReplaceAllShrinks(s[|pat|..], pat, rep);
    } else if |s| > 0 {
      ReplaceAllShrinks(s[1..], pat, rep);
    }
  }

  /** A character in neither the text nor the replacement is not in the
      result. */
  lemma {:induction false} ReplaceAllKeepsOut(s: string, pat: string, rep: string, c: char)
    requires |pat| > 0 && c !in s && c !in rep
    ensures c !in ReplaceAll(s, pat, rep)
    decreases |s|
  {
    if pat <= s {
      assert forall k :: 0 <= k < |s| - |pat| ==> s[|pat|..][k] == s[|pat| + k];
      ReplaceAllKeepsOut(s[|pat|..], pat, rep, c);
    } else if |s| > 0 {
      assert forall k :: 0 <= k < |s| - 1 ==> s[1..][k] == s[1 + k];
      ReplaceAllKeepsOut(s[1..], pat, rep, c);
    }
  }

  /** Where the pattern occurs, the replacement shows up in the result. */
  lemma {:induction false} ReplaceAllShowsRep(s: string, pat: string, rep: string)
    requires |pat| > 0 && Contains(s, pat)
    ensures Contains(ReplaceAll(s, pat, rep), rep)
    decreases |s|
  {
    if pat <= s {
      assert rep <= ReplaceAll(s, pat, rep);
    } else {
      ReplaceAllShowsRep(s[1..], pat, rep);
      assert ReplaceAll(s, pat, rep)[1..] == ReplaceAll(s[1..], pat, rep);
    }
  }

  /** Trimming twice is trimming once. */
  lemma TrimIdempotent(s: string)
    ensures Trim(Trim(s)) == Trim(s)
  {
    var r := Trim(s);
    if |r| > 0 {
      assert !IsWhitespace(r[|r| - 1]);
      assert TrimEnd(r) == r;
      assert TrimStart(r) == r;
    }
  }
}
