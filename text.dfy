/**
 * Strings as Python compares and formats them: code-point lexicographic order
 * (what `list.sort` and `<=` on `str` use), prefix/suffix tests, zero-padded
 * fixed-width decimal fields (`%Y`, `%m`, `%H`, ...) and `str(n)` for a natural.
 */
module Text {

  /** Python's `a <= b` on `str`: the first differing code point decides, a proper prefix is smaller. */
  predicate LexLe(a: string, b: string)
  {
    if a == [] then true
    else if b == [] then false
    else if a[0] != b[0] then a[0] < b[0]
    else LexLe(a[1..], b[1..])
  }

  lemma {:induction false} LexLeRefl(a: string)
    ensures LexLe(a, a)
  {
    if a != [] { LexLeRefl(a[1..]); }
  }

  lemma {:induction false} LexLeTotal(a: string, b: string)
    ensures LexLe(a, b) || LexLe(b, a)
  {
    if a != [] && b != [] && a[0] == b[0] { LexLeTotal(a[1..], b[1..]); }
  }

  lemma {:induction false} LexLeAntisymmetric(a: string, b: string)
    requires LexLe(a, b) && LexLe(b, a)
    ensures a == b
  {
    if a != [] && b != [] {
      LexLeAntisymmetric(a[1..], b[1..]);
      assert a == [a[0]] + a[1..] && b == [b[0]] + b[1..];
    }
  }

  lemma {:induction false} LexLeTransitive(a: string, b: string, c: string)
    requires LexLe(a, b) && LexLe(b, c)
    ensures LexLe(a, c)
  {
    if a != [] && b != [] && c != [] && a[0] == b[0] && b[0] == c[0] {
      LexLeTransitive(a[1..], b[1..], c[1..]);
    }
  }

  /** A shared prefix does not affect the comparison. */
  lemma {:induction false} LexLeCommonPrefix(p: string, a: string, b: string)
    ensures LexLe(p + a, p + b) <==> LexLe(a, b)
  {
    if p == [] {
      assert p + a == a && p + b == b;
    } else {
      assert (p + a)[0] == p[0] && (p + a)[1..] == p[1..] + a;
      assert (p + b)[0] == p[0] && (p + b)[1..] == p[1..] + b;
      LexLeCommonPrefix(p[1..], a, b);
    }
  }

  /**
   * Comparing two strings that start with blocks of the same width: the blocks
   * decide unless they are equal, in which case the rest decides.
   */
  lemma {:induction false} LexLeBlocks(a: string, x: string, b: string, y: string)
    requires |a| == |b|
    ensures LexLe(a + x, b + y) <==> (a != b && LexLe(a, b)) || (a == b && LexLe(x, y))
  {
    if a == [] {
      assert a + x == x && b + y == y;
    } else {
      assert (a + x)[0] == a[0] && (a + x)[1..] == a[1..] + x;
      assert (b + y)[0] == b[0] && (b + y)[1..] == b[1..] + y;
      LexLeBlocks(a[1..], x, b[1..], y);
      assert a == [a[0]] + a[1..] && b == [b[0]] + b[1..];
      if a[0] == b[0] && a[1..] == b[1..] { LexLeRefl(a); }
    }
  }

  /** Two concatenations whose first parts have the same width are equal exactly when both parts are. */
  lemma ConcatEqual(a: string, x: string, b: string, y: string)
    requires |a| == |b|
    ensures a + x == b + y <==> a == b && x == y
  {
    if a + x == b + y {
      assert a == (a + x)[..|a|] && b == (b + y)[..|b|];
      assert x == (a + x)[|a|..] && y == (b + y)[|b|..];
    }
  }

  predicate StartsWith(s: string, prefix: string)
  {
    |prefix| <= |s| && s[..|prefix|] == prefix
  }

  predicate EndsWith(s: string, suffix: string)
  {
    |suffix| <= |s| && s[|s| - |suffix|..] == suffix
  }

  predicate IsDigit(c: char)
  {
    '0' <= c <= '9'
  }

  function Digit(d: nat): (c: char)
    requires d < 10
    ensures IsDigit(c) && c as int - '0' as int == d
  {
    (d + '0' as int) as char
  }

  function DigitValue(c: char): (d: nat)
    requires IsDigit(c)
    ensures d < 10
  {
    c as int - '0' as int
  }

  function Pow10(w: nat): (p: nat)
    ensures p >= 1
  {
    if w == 0 then 1 else 10 * Pow10(w - 1)
  }

  /** The last `w` decimal digits of `n`, zero-padded on the left (`%02d`, `%04d`). */
  function Pad(n: nat, w: nat): (s: string)
    ensures |s| == w
  {
    if w == 0 then [] else Pad(n / 10, w - 1) + [Digit(n % 10)]
  }

  lemma {:induction false} PadDigits(n: nat, w: nat)
    ensures forall i :: 0 <= i < w ==> IsDigit(Pad(n, w)[i])
  {
    if w > 0 {
      PadDigits(n / 10, w - 1);
      assert forall i :: 0 <= i < w - 1 ==> Pad(n, w)[i] == Pad(n / 10, w - 1)[i];
    }
  }

  /** Zero-padded fields of equal width compare, as text, like the numbers they render. */
  lemma {:induction false} PadOrder(n: nat, m: nat, w: nat)
    requires n < Pow10(w) && m < Pow10(w)
    ensures LexLe(Pad(n, w), Pad(m, w)) <==> n <= m
    ensures Pad(n, w) == Pad(m, w) <==> n == m
  {
    if w > 0 {
      var a, b := Pad(n / 10, w - 1), Pad(m / 10, w - 1);
      var x, y := Digit(n % 10), Digit(m % 10);
      PadOrder(n / 10, m / 10, w - 1);
      LexLeBlocks(a, [x], b, [y]);
      assert LexLe([x], [y]) <==> x <= y by {
        assert [x][1..] == [] && [y][1..] == [];
      }
      if Pad(n, w) == Pad(m, w) {
        assert Pad(n, w)[..w - 1] == a && Pad(m, w)[..w - 1] == b;
        assert Pad(n, w)[w - 1] == x && Pad(m, w)[w - 1] == y;
      }
    }
  }

  /** Python's `str(n)` for a natural number: no padding, no sign. */
  function Decimal(n: nat): (s: string)
    ensures |s| >= 1
    ensures forall i :: 0 <= i < |s| ==> IsDigit(s[i])
  {
    if n < 10 then [Digit(n)] else Decimal(n / 10) + [Digit(n % 10)]
  }

  /** Reads back a string of decimal digits. */
  function ParseDecimal(s: string): nat
    requires forall i :: 0 <= i < |s| ==> IsDigit(s[i])
  {
    if s == [] then 0
    else
      assert IsDigit(s[|s| - 1]);
      10 * ParseDecimal(s[..|s| - 1]) + DigitValue(s[|s| - 1])
  }

  lemma {:induction false} DecimalRoundTrip(n: nat)
    ensures ParseDecimal(Decimal(n)) == n
  {
    if n >= 10 {
      var s := Decimal(n);
      assert s[..|s| - 1] == Decimal(n / 10);
      DecimalRoundTrip(n / 10);
    }
  }

  /** SQLite's identifier comparison: an ASCII upper-case letter counts as its lower-case form. */
  function LowerAscii(c: char): char
  {
    if 'A' <= c <= 'Z' then (c as int + 32) as char else c
  }

  predicate NoUpperAscii(s: string)
  {
    forall i :: 0 <= i < |s| ==> !('A' <= s[i] <= 'Z')
  }

  /** A name with its ASCII letters lower-cased and every other character kept. */
  function FoldCase(s: string): (r: string)
    ensures |r| == |s|
    ensures forall i :: 0 <= i < |s| ==> r[i] == LowerAscii(s[i])
    ensures NoUpperAscii(r)
  {
    seq(|s|, i requires 0 <= i < |s| => LowerAscii(s[i]))
  }

  /** Two names SQLite takes for the same column: equal once ASCII letter case is ignored. */
  predicate SameIdent(a: string, b: string)
  {
    FoldCase(a) == FoldCase(b)
  }

  /** Names without ASCII upper-case letters are the same identifier exactly when they are equal. */
  lemma SameIdentLower(a: string, b: string)
    requires NoUpperAscii(a) && NoUpperAscii(b)
    ensures SameIdent(a, b) <==> a == b
  {
    assert FoldCase(a) == a;
    assert FoldCase(b) == b;
  }

  /** Folding case twice changes nothing more, so SameIdent relates a name to its folded form. */
  lemma FoldCaseIdempotent(s: string)
    ensures FoldCase(FoldCase(s)) == FoldCase(s)
    ensures SameIdent(s, FoldCase(s))
  {
    var f := FoldCase(s);
    assert FoldCase(f) == f;
  }
}
