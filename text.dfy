/**
 * The Python `str` operations the expense tracker relies on, over Dafny
 * strings (sequences of Unicode code points): `strip`, `split`, `in`,
 * `replace`, decimal digits, `str(int)`, `int(str)` and space padding.
 */
module Text {
  import opened Wrappers

  // ---------------------------------------------------------------------
  // Whitespace and str.strip()
  // ---------------------------------------------------------------------

  /** Python's `str.isspace` for one code point. */
  predicate IsSpace(c: char) {
    c == ' ' || c == '\t' || c == '\n' || c == '\r' || c == '\U{000B}' || c == '\U{000C}'
    || ('\U{001C}' <= c <= '\U{001F}') || c == '\U{0085}' || c == '\U{00A0}' || c == '\U{1680}'
    || ('\U{2000}' <= c <= '\U{200A}') || c == '\U{2028}' || c == '\U{2029}' || c == '\U{202F}'
    || c == '\U{205F}' || c == '\U{3000}'
  }

  /**
   * The information separators U+001C..U+001F: whitespace to `str.isspace`
   * and `strip`, but not skipped by `int()` and `float()`, which skip only
   * ASCII space, tab, line feed, vertical tab, form feed, carriage return
   * and (mapped to a space first) non-ASCII whitespace.
   */
  predicate IsSeparatorControl(c: char) {
    '\U{001C}' <= c <= '\U{001F}'
  }

  /** Some code point of `s` is an information separator. */
  predicate HasSeparatorControl(s: string) {
    exists i :: 0 <= i < |s| && IsSeparatorControl(s[i])
  }

  /** No whitespace at either end. */
  predicate Trimmed(s: string) {
    s == [] || (!IsSpace(s[0]) && !IsSpace(s[|s| - 1]))
  }

  function TrimLeft(s: string): (r: string)
    ensures |r| <= |s| && r == s[|s| - |r|..]
    ensures r == [] || !IsSpace(r[0])
    ensures forall i :: 0 <= i < |s| - |r| ==> IsSpace(s[i])
  {
    if s != [] && IsSpace(s[0]) then TrimLeft(s[1..]) else s
  }

  function TrimRight(s: string): (r: string)
    ensures |r| <= |s| && r == s[..|r|]
    ensures r == [] || !IsSpace(r[|r| - 1])
    ensures forall i :: |r| <= i < |s| ==> IsSpace(s[i])
  {
    if s != [] && IsSpace(s[|s| - 1]) then TrimRight(s[..|s| - 1]) else s
  }

  /** Python's `str.strip()` with no argument. */
  function Strip(s: string): (r: string) {
    TrimRight(TrimLeft(s))
  }

  /** What `strip` returns: the whitespace-free core of its argument, cutting off only whitespace. */
  lemma StripShape(s: string)
    ensures Trimmed(Strip(s))
    ensures var i := |s| - |TrimLeft(s)|; i + |Strip(s)| <= |s| && Strip(s) == s[i..i + |Strip(s)|]
  {
    StripTrimmed(s);
    StripSlice(s);
  }

  lemma StripTrimmed(s: string)
    ensures Trimmed(Strip(s))
  {
    var l := TrimLeft(s);
    if Strip(s) != [] {
      assert Strip(s)[0] == l[0];
    }
  }

  lemma StripSlice(s: string)
    ensures var i := |s| - |TrimLeft(s)|; i + |Strip(s)| <= |s| && Strip(s) == s[i..i + |Strip(s)|]
  {
    var l := TrimLeft(s);
    var r := TrimRight(l);
    var i := |s| - |l|;
    PrefixOfSuffix(s, i, |r|);
  }

  lemma PrefixOfSuffix<T>(s: seq<T>, i: nat, n: nat)
    requires i + n <= |s|
    ensures s[i..][..n] == s[i..i + n]
  {
  }

  lemma SliceKeepsAbsent(s: string, i: int, j: int, c: char)
    requires c !in s && 0 <= i <= j <= |s|
    ensures c !in s[i..j]
  {
    forall k | 0 <= k < j - i ensures s[i..j][k] != c {
      assert s[i..j][k] == s[i + k];
    }
  }

  lemma TrimLeftOfTrimmed(s: string)
    requires s == [] || !IsSpace(s[0])
    ensures TrimLeft(s) == s
  {
  }

  lemma TrimRightOfTrimmed(s: string)
    requires s == [] || !IsSpace(s[|s| - 1])
    ensures TrimRight(s) == s
  {
  }

  /** A string without whitespace at its ends is its own strip. */
  lemma StripOfTrimmed(s: string)
    requires Trimmed(s)
    ensures Strip(s) == s
  {
    TrimLeftOfTrimmed(s);
    TrimRightOfTrimmed(s);
  }

  /** `strip` is idempotent, so stripping a segment twice (as the parser does) changes nothing. */
  lemma StripIdempotent(s: string)
    ensures Strip(Strip(s)) == Strip(s)
  {
    StripShape(s);
    StripOfTrimmed(Strip(s));
  }

  /** `strip` leaves nothing exactly when the string is all whitespace. */
  lemma StripEmpty(s: string)
    ensures Strip(s) == [] <==> forall i :: 0 <= i < |s| ==> IsSpace(s[i])
  {
    var l := TrimLeft(s);
    assert Strip(s) == [] ==> l == [];
  }

  /** `strip` only cuts, so a character absent from a string is absent from its strip. */
  lemma StripKeepsAbsent(s: string, c: char)
    requires c !in s
    ensures c !in Strip(s)
  {
    StripSlice(s);
    var i := |s| - |TrimLeft(s)|;
    SliceKeepsAbsent(s, i, i + |Strip(s)|, c);
  }

  /** Stripping a string whose whitespace-free core is surrounded by whitespace returns the core. */
  lemma StripPadded(pre: string, core: string, post: string)
    requires forall i :: 0 <= i < |pre| ==> IsSpace(pre[i])
    requires forall i :: 0 <= i < |post| ==> IsSpace(post[i])
    requires core != [] && Trimmed(core)
    ensures Strip(pre + core + post) == core
  {
    var rest := core + post;
    assert rest[0] == core[0];
    TrimLeftPrefix(pre, rest);
    ConcatAssoc(pre, core, post);
    TrimRightSuffix(core, post);
  }

  lemma ConcatAssoc(a: string, b: string, c: string)
    ensures a + b + c == a + (b + c)
  {
  }

  lemma TrimLeftPrefix(pre: string, rest: string)
    requires forall i :: 0 <= i < |pre| ==> IsSpace(pre[i])
    requires rest != [] && !IsSpace(rest[0])
    ensures TrimLeft(pre + rest) == rest
    decreases |pre|
  {
    if pre != [] {
      assert (pre + rest)[1..] == pre[1..] + rest;
      TrimLeftPrefix(pre[1..], rest);
    }
  }

  lemma TrimRightSuffix(core: string, post: string)
    requires forall i :: 0 <= i < |post| ==> IsSpace(post[i])
    requires core != [] && !IsSpace(core[|core| - 1])
    ensures TrimRight(core + post) == core
    decreases |post|
  {
    if post != [] {
      var p := post[..|post| - 1];
      assert (core + post)[..|core + post| - 1] == core + p;
      TrimRightSuffix(core, p);
    }
  }

  // ---------------------------------------------------------------------
  // str.split(sep) with a one-character separator, and its inverse
  // ---------------------------------------------------------------------

  /** Python's `s.split(sep)`: the pieces between separators, at least one. */
  function Split(s: string, sep: char): (r: seq<string>)
    ensures |r| >= 1
    decreases |s|
  {
    if s == [] then [""]
    else
      var rest := Split(s[1..], sep);
      if s[0] == sep then [""] + rest else [[s[0]] + rest[0]] + rest[1..]
  }

  /** `sep.join(pieces)`. */
  function Join(pieces: seq<string>, sep: char): string
    requires |pieces| >= 1
  {
    if |pieces| == 1 then pieces[0] else pieces[0] + [sep] + Join(pieces[1..], sep)
  }

  /** No piece of a split contains the separator. */
  lemma {:induction false} SplitPiecesFree(s: string, sep: char)
    ensures forall k :: 0 <= k < |Split(s, sep)| ==> sep !in Split(s, sep)[k]
    decreases |s|
  {
    if s != [] {
      SplitPiecesFree(s[1..], sep);
    }
  }

  /** Joining the pieces of a split gives back the string. */
  lemma {:induction false} JoinSplit(s: string, sep: char)
    ensures Join(Split(s, sep), sep) == s
    decreases |s|
  {
    if s != [] {
      var rest := Split(s[1..], sep);
      JoinSplit(s[1..], sep);
      if s[0] == sep {
        JoinEmptyHead(rest, sep);
      } else {
        JoinHead([s[0]], rest, sep);
      }
      assert [s[0]] + s[1..] == s;
    }
  }

  lemma JoinEmptyHead(r: seq<string>, sep: char)
    requires |r| >= 1
    ensures Join([""] + r, sep) == [sep] + Join(r, sep)
  {
    assert ([""] + r)[1..] == r;
  }

  /** Extending the first piece extends the join at its front. */
  lemma JoinHead(x: string, r: seq<string>, sep: char)
    requires |r| >= 1
    ensures Join([x + r[0]] + r[1..], sep) == x + Join(r, sep)
  {
    var t := [x + r[0]] + r[1..];
    if |r| > 1 {
      assert t[1..] == r[1..];
      ConcatAssoc(x, r[0], [sep] + Join(r[1..], sep));
      ConcatAssoc(x + r[0], [sep], Join(r[1..], sep));
      ConcatAssoc(r[0], [sep], Join(r[1..], sep));
    }
  }

  /** Splitting a join of separator-free pieces gives back the pieces. */
  lemma {:induction false} SplitJoin(pieces: seq<string>, sep: char)
    requires |pieces| >= 1
    requires forall k :: 0 <= k < |pieces| ==> sep !in pieces[k]
    ensures Split(Join(pieces, sep), sep) == pieces
    decreases pieces
  {
    if |pieces| == 1 {
      SplitFree(pieces[0], sep);
    } else {
      SplitJoin(pieces[1..], sep);
      SplitPrefix(pieces[0], Join(pieces[1..], sep), sep);
      assert [pieces[0]] + pieces[1..] == pieces;
    }
  }

  /** Splitting `x + [sep] + d`, with `d` separator-free, puts `d` after the split of `x`. */
  lemma {:induction false} SplitSuffix(x: string, d: string, sep: char)
    requires sep !in d
    ensures Split(x + [sep] + d, sep) == Split(x, sep) + [d]
    decreases |x|
  {
    if x == [] {
      assert x + [sep] + d == [sep] + d;
      assert ([sep] + d)[1..] == d;
      SplitFree(d, sep);
    } else {
      assert (x + [sep] + d)[1..] == x[1..] + [sep] + d;
      SplitSuffix(x[1..], d, sep);
    }
  }

  /** A separator-free string splits into itself. */
  lemma {:induction false} SplitFree(s: string, sep: char)
    requires sep !in s
    ensures Split(s, sep) == [s]
    decreases |s|
  {
    if s != [] {
      SplitFree(s[1..], sep);
      assert [s[0]] + s[1..] == s;
    }
  }

  /** Splitting `a + [sep] + b`, with `a` separator-free, puts `a` in front of the split of `b`. */
  lemma {:induction false} SplitPrefix(a: string, b: string, sep: char)
    requires sep !in a
    ensures Split(a + [sep] + b, sep) == [a] + Split(b, sep)
    decreases |a|
  {
    if a == [] {
      assert ([sep] + b)[1..] == b;
    } else {
      var s := a + [sep] + b;
      assert s[1..] == a[1..] + [sep] + b;
      SplitPrefix(a[1..], b, sep);
      assert [a[0]] + a[1..] == a;
    }
  }

  /** A split yields one piece more than there are separators. */
  lemma {:induction false} SplitCount(s: string, sep: char)
    ensures |Split(s, sep)| == multiset(s)[sep] + 1
    decreases |s|
  {
    if s != [] {
      SplitCount(s[1..], sep);
      assert s == [s[0]] + s[1..];
      assert multiset(s) == multiset{s[0]} + multiset(s[1..]);
    }
  }

  // ---------------------------------------------------------------------
  // Substring test and str.replace(pat, rep)
  // ---------------------------------------------------------------------

  /** `pat` occurs in `s` at position `i`. */
  predicate OccursAt(s: string, pat: string, i: int) {
    0 <= i && i + |pat| <= |s| && s[i..i + |pat|] == pat
  }

  /** Python's `pat in s`. */
  function Contains(s: string, pat: string): (b: bool)
    decreases |s|
  {
    |pat| <= |s| && (s[..|pat|] == pat || Contains(s[1..], pat))
  }

  /** `Contains` holds exactly when the pattern occurs at some position. */
  lemma {:induction false} ContainsOccurs(s: string, pat: string)
    ensures Contains(s, pat) <==> exists i :: OccursAt(s, pat, i)
    decreases |s|
  {
    if |pat| <= |s| {
      if s[..|pat|] != pat {
        ContainsOccurs(s[1..], pat);
        forall i | OccursAt(s, pat, i) ensures OccursAt(s[1..], pat, i - 1) {
          assert i != 0;
          assert s[1..][i - 1..i - 1 + |pat|] == s[i..i + |pat|];
        }
        forall i | OccursAt(s[1..], pat, i) ensures OccursAt(s, pat, i + 1) {
          assert s[1..][i..i + |pat|] == s[i + 1..i + 1 + |pat|];
        }
      } else {
        assert OccursAt(s, pat, 0);
      }
    }
  }

  /** Python's `s.replace(pat, rep)`: a left-to-right scan replacing non-overlapping occurrences. */
  function ReplaceAll(s: string, pat: string, rep: string): string
    requires pat != []
    decreases |s|
  {
    if |s| < |pat| then s
    else if s[..|pat|] == pat then rep + ReplaceAll(s[|pat|..], pat, rep)
    else [s[0]] + ReplaceAll(s[1..], pat, rep)
  }

  /** Replacing in a string without the pattern changes nothing. */
  lemma {:induction false} ReplaceAllAbsent(s: string, pat: string, rep: string)
    requires pat != [] && !Contains(s, pat)
    ensures ReplaceAll(s, pat, rep) == s
    decreases |s|
  {
    if |s| >= |pat| {
      ReplaceAllAbsent(s[1..], pat, rep);
    }
  }

  /** Each replacement with the empty string shortens the text by the pattern's length. */
  lemma {:induction false} ReplaceAllShrinks(s: string, pat: string)
    requires pat != []
    ensures |ReplaceAll(s, pat, "")| <= |s|
    ensures Contains(s, pat) ==> |ReplaceAll(s, pat, "")| <= |s| - |pat|
    decreases |s|
  {
    if |s| >= |pat| {
      ReplaceAllShrinks(s[1..], pat);
      ReplaceAllShrinks(s[|pat|..], pat);
    }
  }

  // ---------------------------------------------------------------------
  // Decimal digits, str(n) and int(s)
  // ---------------------------------------------------------------------

  predicate IsDigit(c: char) {
    '0' <= c <= '9'
  }

  predicate AllDigits(s: string) {
    forall i :: 0 <= i < |s| ==> IsDigit(s[i])
  }

  function DigitValue(c: char): (d: nat)
    requires IsDigit(c)
    ensures d < 10
  {
    c as int - '0' as int
  }

  function DigitChar(d: nat): (c: char)
    requires d < 10
    ensures IsDigit(c) && DigitValue(c) == d
  {
    ('0' as int + d) as char
  }

  /** The value of a string of decimal digits, most significant first (the empty string is 0). */
  function DigitsValue(s: string): nat
    requires AllDigits(s)
  {
    if s == [] then 0 else DigitsValue(s[..|s| - 1]) * 10 + DigitValue(s[|s| - 1])
  }

  /** Python's `str(n)` for a natural number: no leading zeros, "0" for zero. */
  function NatToString(n: nat): (s: string)
    ensures s != [] && AllDigits(s)
    ensures (s[0] == '0') == (n == 0)
  {
    if n < 10 then [DigitChar(n)] else NatToString(n / 10) + [DigitChar(n % 10)]
  }

  /** Python's `str(n)` for any integer. */
  function IntToString(n: int): string {
    if n >= 0 then NatToString(n) else "-" + NatToString(-n)
  }

  /** `str` and reading digits back are inverse. */
  lemma {:induction false} NatToStringValue(n: nat)
    ensures DigitsValue(NatToString(n)) == n
  {
    if n >= 10 {
      NatToStringValue(n / 10);
      var s := NatToString(n);
      assert s[..|s| - 1] == NatToString(n / 10);
    }
  }

  /** `str` of a number below 10^k has at most k digits. */
  lemma {:induction false} NatToStringLength(n: nat, k: nat, bound: nat)
    requires bound == Pow10(k) && n < bound
    ensures |NatToString(n)| <= k + 1 && (k >= 1 ==> |NatToString(n)| <= k)
    decreases k
  {
    if k >= 1 && n >= 10 {
      NatToStringLength(n / 10, k - 1, Pow10(k - 1));
    }
  }

  lemma DigitsValueOne(s: string)
    requires |s| == 1 && AllDigits(s)
    ensures DigitsValue(s) == DigitValue(s[0])
  {
    assert s[..0] == [];
  }

  lemma DigitsValueTwo(s: string)
    requires |s| == 2 && AllDigits(s)
    ensures DigitsValue(s) == 10 * DigitValue(s[0]) + DigitValue(s[1])
  {
    DigitsValueOne(s[..1]);
  }

  lemma DigitsValueFour(s: string)
    requires |s| == 4 && AllDigits(s)
    ensures DigitsValue(s) == 1000 * DigitValue(s[0]) + 100 * DigitValue(s[1]) + 10 * DigitValue(s[2]) + DigitValue(s[3])
  {
    var p := s[..3];
    DigitsValueTwo(p[..2]);
    assert p[..2] == s[..2] && p[2] == s[2];
  }

  /** A string of k digits denotes a number below 10^k. */
  lemma {:induction false} DigitsValueBound(s: string)
    requires AllDigits(s)
    ensures DigitsValue(s) < Pow10(|s|)
    decreases |s|
  {
    if s != [] {
      DigitsValueBound(s[..|s| - 1]);
    }
  }

  /** `str` of a four-digit number has four characters. */
  /** `str` of a four-digit number: its four decimal digits. */
  lemma NatToStringFour(n: nat)
    requires 1000 <= n <= 9999
    ensures NatToString(n) == [DigitChar(n / 1000), DigitChar(n / 100 % 10), DigitChar(n / 10 % 10), DigitChar(n % 10)]
    ensures |NatToString(n)| == 4
  {
    var a := n / 10;
    var b := a / 10;
    var c := b / 10;
    assert b == n / 100 && c == n / 1000;
    assert NatToString(c) == [DigitChar(c)];
    assert NatToString(b) == NatToString(c) + [DigitChar(b % 10)];
    assert NatToString(a) == NatToString(b) + [DigitChar(a % 10)];
  }

  function Pow10(k: nat): nat {
    if k == 0 then 1 else 10 * Pow10(k - 1)
  }

  /** Digits that carry underscores only between two digits, as `int()` accepts them. */
  predicate UnderscoredDigits(b: string) {
    && b != []
    && IsDigit(b[0])
    && (forall i :: 0 <= i < |b| ==> DigitOrUnderscore(b[i]))
    && (forall i :: 0 <= i < |b| && b[i] == '_' ==> i + 1 < |b| && IsDigit(b[i + 1]))
  }

  predicate DigitOrUnderscore(c: char) {
    IsDigit(c) || c == '_'
  }

  function RemoveUnderscores(b: string): (r: string)
    ensures |r| <= |b|
    ensures (forall i :: 0 <= i < |b| ==> DigitOrUnderscore(b[i])) ==> AllDigits(r)
    ensures AllDigits(b) ==> r == b
  {
    if b == [] then []
    else if b[0] == '_' then RemoveUnderscores(b[1..])
    else [b[0]] + RemoveUnderscores(b[1..])
  }

  /** The magnitude part of `int(s)`. */
  function IntBody(b: string): Option<nat> {
    if UnderscoredDigits(b) then Some(DigitsValue(RemoveUnderscores(b)))
    else None
  }

  /**
   * Python's `int(s)` on a `str`: surrounding whitespace, an optional sign,
   * then ASCII decimal digits with single underscores between digits.
   * An information separator anywhere is a ValueError: `int()` does not
   * skip it as whitespace, and it is no digit, sign or underscore.
   * `None` stands for the ValueError it raises otherwise.
   */
  function PyInt(s: string): (r: Option<int>) {
    var t := Strip(s);
    if HasSeparatorControl(s) then None
    else if t != [] && (t[0] == '+' || t[0] == '-') then
      match IntBody(t[1..])
      case None => None
      case Some(v) => Some(if t[0] == '-' then -(v as int) else v)
    else
      match IntBody(t)
      case None => None
      case Some(v) => Some(v)
  }

  /** `int()` does not skip an information separator before or after the digits. */
  lemma SeparatorNotSkipped()
    ensures PyInt("\U{001C}5") == None && PyInt("5\U{001F}") == None
  {
    assert IsSeparatorControl("\U{001C}5"[0]);
    assert IsSeparatorControl("5\U{001F}"[1]);
  }

  /** `int()` of a non-empty string of digits is its decimal value. */
  lemma PyIntOfDigits(s: string)
    requires s != [] && AllDigits(s)
    ensures PyInt(s) == Some(DigitsValue(s))
  {
    StripOfTrimmed(s);
    IntBodyOfDigits(s);
    assert IsDigit(s[0]);
  }

  lemma IntBodyOfDigits(s: string)
    requires s != [] && AllDigits(s)
    ensures IntBody(s) == Some(DigitsValue(s))
  {
    assert UnderscoredDigits(s);
    assert RemoveUnderscores(s) == s;
  }

  /** `int(str(n)) == n`. */
  lemma PyIntOfNatToString(n: nat)
    ensures PyInt(NatToString(n)) == Some(n)
  {
    PyIntOfDigits(NatToString(n));
    NatToStringValue(n);
  }

  // ---------------------------------------------------------------------
  // Padding
  // ---------------------------------------------------------------------

  /** Python's `" " * n`; empty for a negative count. */
  function Spaces(n: int): (r: string)
    ensures |r| == if n < 0 then 0 else n
    ensures forall i :: 0 <= i < |r| ==> r[i] == ' '
  {
    if n <= 0 then [] else [' '] + Spaces(n - 1)
  }
}
