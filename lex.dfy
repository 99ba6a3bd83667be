/** Rust's `Ord for String`: the lexicographic order of the UTF-8 bytes. UTF-8
    encodes code points so that byte order agrees with code point order, so
    the order is stated here on `seq<char>` directly. */
module Lex {

  datatype Ordering = Less | Equal | Greater

  /** `a <= b` in lexicographic order: a prefix comes first, otherwise the
      first differing character decides. */
  predicate LexLe(a: string, b: string)
    decreases |a|
  {
    |a| == 0 || (|b| > 0 && (a[0] < b[0] || (a[0] == b[0] && LexLe(a[1..], b[1..]))))
  }

  /** `a.cmp(&b)` on Rust strings. */
  function Compare(a: string, b: string): (o: Ordering)
    ensures o == Equal <==> a == b
    ensures o == Less <==> LexLe(a, b) && a != b
    ensures o == Greater <==> !LexLe(a, b)
    decreases |a|
  {
    if |a| == 0 then (if |b| == 0 then Equal else Less)
    else if |b| == 0 then Greater
    else if a[0] < b[0] then Less
    else if b[0] < a[0] then Greater
    else
      var o := Compare(a[1..], b[1..]);
      assert a == [a[0]] + a[1..] && b == [b[0]] + b[1..];
      o
  }

  lemma {:induction false} LexLeReflexive(a: string)
    ensures LexLe(a, a)
  {
    if |a| > 0 { LexLeReflexive(a[1..]); }
  }

  lemma {:induction false} LexLeAntisymmetric(a: string, b: string)
    requires LexLe(a, b) && LexLe(b, a)
    ensures a == b
  {
    if |a| > 0 {
      LexLeAntisymmetric(a[1..], b[1..]);
      assert a == [a[0]] + a[1..] && b == [b[0]] + b[1..];
    }
  }

  lemma {:induction false} LexLeTransitive(a: string, b: string, c: string)
    requires LexLe(a, b) && LexLe(b, c)
    ensures LexLe(a, c)
  {
    if |a| > 0 && a[0] == b[0] && b[0] == c[0] {
      LexLeTransitive(a[1..], b[1..], c[1..]);
    }
  }

  lemma {:induction false} LexLeTotal(a: string, b: string)
    ensures LexLe(a, b) || LexLe(b, a)
  {
    if |a| > 0 && |b| > 0 && a[0] == b[0] {
      LexLeTotal(a[1..], b[1..]);
    }
  }

  /** A common prefix does not change the order: comparing `p + x` with
      `p + y` is comparing `x` with `y`. */
  lemma {:induction false} CompareCommonPrefix(p: string, x: string, y: string)
    ensures Compare(p + x, p + y) == Compare(x, y)
  {
    if |p| > 0 {
      CompareCommonPrefix(p[1..], x, y);
      assert (p + x)[1..] == p[1..] + x && (p + y)[1..] == p[1..] + y;
    } else {
      assert p + x == x && p + y == y;
    }
  }
}
