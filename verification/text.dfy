/**
 * String primitives shared by the JavaScript components and the Python CORS
 * tools: substring search, the two languages' whitespace classes, strip/trim,
 * Python's split and join, JavaScript's UTF-16 `length`, and decimal text.
 */
module Text {

  /** `t` occurs in `s` starting at offset `k`. */
  predicate OccursAt(s: string, t: string, k: int) {
    0 <= k && k + |t| <= |s| && s[k..k + |t|] == t
  }

  /** Substring test: Python's `t in s`, JavaScript's `s.includes(t)`. */
  predicate Contains(s: string, t: string) {
    exists k | 0 <= k <= |s| - |t| :: OccursAt(s, t, k)
  }

  /** `s.startswith(t)` / `s.startsWith(t)`. */
  predicate StartsWith(s: string, t: string) {
    |t| <= |s| && s[..|t|] == t
  }

  /** `s.endswith(t)` / `s.endsWith(t)`. */
  predicate EndsWith(s: string, t: string) {
    |t| <= |s| && s[|s| - |t|..] == t
  }

  lemma ContainsSelf(t: string)
    ensures Contains(t, t)
  {
    assert OccursAt(t, t, 0);
  }

  lemma ContainsLeft(a: string, b: string, t: string)
    requires Contains(a, t)
    ensures Contains(a + b, t)
  {
    var k :| 0 <= k <= |a| - |t| && OccursAt(a, t, k);
    assert (a + b)[k..k + |t|] == a[k..k + |t|];
    assert OccursAt(a + b, t, k);
  }

  lemma ContainsRight(a: string, b: string, t: string)
    requires Contains(b, t)
    ensures Contains(a + b, t)
  {
    var k :| 0 <= k <= |b| - |t| && OccursAt(b, t, k);
    assert (a + b)[|a| + k..|a| + k + |t|] == b[k..k + |t|];
    assert OccursAt(a + b, t, |a| + k);
  }

  /** `t` occurs in any string that has it between a prefix and a suffix. */
  lemma ContainsMiddle(a: string, t: string, b: string)
    ensures Contains(a + t + b, t)
  {
    assert (a + t + b)[|a|..|a| + |t|] == t;
    assert OccursAt(a + t + b, t, |a|);
  }

  /** A character occurring in `t` occurs in every string containing `t`. */
  lemma ContainsChar(s: string, t: string, i: int)
    requires Contains(s, t) && 0 <= i < |t|
    ensures t[i] in s
  {
    var k :| 0 <= k <= |s| - |t| && OccursAt(s, t, k);
    assert s[k..k + |t|][i] == s[k + i];
  }

  /** The characters JavaScript's `String.prototype.trim` removes: WhiteSpace and LineTerminator. */
  predicate IsJsSpace(c: char) {
    || c == '\t' || c == '\n' || c == '\U{000B}' || c == '\U{000C}' || c == '\r'
    || c == ' ' || c == '\U{00A0}' || c == '\U{1680}' || ('\U{2000}' <= c <= '\U{200A}')
    || c == '\U{2028}' || c == '\U{2029}' || c == '\U{202F}' || c == '\U{205F}'
    || c == '\U{3000}' || c == '\U{FEFF}'
  }

  /** The characters Python's `str.isspace` accepts: what `str.strip()` removes and `\s` matches. */
  predicate IsPySpace(c: char) {
    || ('\t' <= c <= '\r') || ('\U{001C}' <= c <= '\U{001F}') || c == ' '
    || c == '\U{0085}' || c == '\U{00A0}' || c == '\U{1680}' || ('\U{2000}' <= c <= '\U{200A}')
    || c == '\U{2028}' || c == '\U{2029}' || c == '\U{202F}' || c == '\U{205F}'
    || c == '\U{3000}'
  }

  /** The first index at or after `i` whose character `drop` rejects, or `|s|`. */
  function KeptFrom(s: string, drop: char -> bool, i: nat): (n: nat)
    requires i <= |s|
    ensures i <= n <= |s|
    ensures forall k :: i <= k < n ==> drop(s[k])
    ensures n == |s| || !drop(s[n])
    decreases |s| - i
  {
    if i < |s| && drop(s[i]) then KeptFrom(s, drop, i + 1) else i
  }

  /** One past the last index before `j` whose character `drop` rejects, or 0. */
  function KeptUntil(s: string, drop: char -> bool, j: nat): (n: nat)
    requires j <= |s|
    ensures n <= j
    ensures forall k :: n <= k < j ==> drop(s[k])
    ensures n == 0 || !drop(s[n - 1])
  {
    if j > 0 && drop(s[j - 1]) then KeptUntil(s, drop, j - 1) else j
  }

  /** Number of leading characters of `s` that `drop` accepts. */
  function LeadingCount(s: string, drop: char -> bool): (n: nat)
    ensures n <= |s|
    ensures forall k :: 0 <= k < n ==> drop(s[k])
    ensures n == |s| || !drop(s[n])
  {
    KeptFrom(s, drop, 0)
  }

  /** Number of trailing characters of `s` that `drop` accepts. */
  function TrailingCount(s: string, drop: char -> bool): (n: nat)
    ensures n <= |s|
    ensures forall k :: |s| - n <= k < |s| ==> drop(s[k])
    ensures n == |s| || !drop(s[|s| - 1 - n])
  {
    |s| - KeptUntil(s, drop, |s|)
  }

  /**
   * Python's `s.strip(chars)` / `s.strip()` and JavaScript's `s.trim()`: the
   * infix left after removing the longest prefix and the longest suffix made
   * of characters `drop` accepts.
   */
  function Strip(s: string, drop: char -> bool): (r: string)
    ensures |r| <= |s| - LeadingCount(s, drop)
    ensures r == s[LeadingCount(s, drop)..LeadingCount(s, drop) + |r|]
    ensures forall k :: LeadingCount(s, drop) + |r| <= k < |s| ==> drop(s[k])
    ensures r == [] || (!drop(r[0]) && !drop(r[|r| - 1]))
    ensures r == [] <==> forall k :: 0 <= k < |s| ==> drop(s[k])
  {
    var a := LeadingCount(s, drop);
    if a == |s| then "" else s[a..|s| - TrailingCount(s, drop)]
  }

  /** The whole string survives stripping when neither end is removable. */
  lemma StripNothing(s: string, drop: char -> bool)
    requires s == [] || (!drop(s[0]) && !drop(s[|s| - 1]))
    ensures Strip(s, drop) == s
  {
    if s != [] {
      assert LeadingCount(s, drop) == 0;
      assert TrailingCount(s, drop) == 0;
    }
  }

  lemma StripIdempotent(s: string, drop: char -> bool)
    ensures Strip(Strip(s, drop), drop) == Strip(s, drop)
  {
    StripNothing(Strip(s, drop), drop);
  }

  /** Padding made only of removable characters is exactly what stripping takes off. */
  lemma StripPadded(l: string, y: string, rt: string, drop: char -> bool)
    requires forall k :: 0 <= k < |l| ==> drop(l[k])
    requires forall k :: 0 <= k < |rt| ==> drop(rt[k])
    requires y != [] && !drop(y[0]) && !drop(y[|y| - 1])
    ensures Strip(l + y + rt, drop) == y
  {
    var s := l + y + rt;
    assert s == l + (y + rt);
    LeadingCountPadded(l, y + rt, drop);
    TrailingCountPadded(l + y, rt, drop);
    assert s[|l|..|s| - |rt|] == y;
  }

  lemma LeadingCountPadded(l: string, t: string, drop: char -> bool)
    requires forall k :: 0 <= k < |l| ==> drop(l[k])
    requires t != [] && !drop(t[0])
    ensures LeadingCount(l + t, drop) == |l|
  {
    assert (l + t)[|l|] == t[0];
  }

  lemma TrailingCountPadded(t: string, r: string, drop: char -> bool)
    requires forall k :: 0 <= k < |r| ==> drop(r[k])
    requires t != [] && !drop(t[|t| - 1])
    ensures TrailingCount(t + r, drop) == |r|
  {
    assert (t + r)[|t| - 1] == t[|t| - 1];
  }

  /** Stripping introduces no character. */
  lemma StripSubset(s: string, drop: char -> bool, c: char)
    requires c !in s
    ensures c !in Strip(s, drop)
  {
    var r := Strip(s, drop);
    var a := LeadingCount(s, drop);
    assert forall k :: 0 <= k < |r| ==> r[k] == s[a + k];
  }

  /** A kept character bounds the removed prefix from above. */
  lemma LeadingStopsAt(s: string, drop: char -> bool, k: int)
    requires 0 <= k < |s| && !drop(s[k])
    ensures LeadingCount(s, drop) <= k
  {
  }

  /** A kept character bounds the removed suffix from below. */
  lemma TrailingStopsAt(s: string, drop: char -> bool, k: int)
    requires 0 <= k < |s| && !drop(s[k])
    ensures k < |s| - TrailingCount(s, drop)
  {
  }

  /** With a kept character, stripping leaves the slice between the removed prefix and suffix. */
  lemma StripSlice(s: string, drop: char -> bool, k: int)
    requires 0 <= k < |s| && !drop(s[k])
    ensures LeadingCount(s, drop) <= k < |s| - TrailingCount(s, drop)
    ensures Strip(s, drop) == s[LeadingCount(s, drop)..|s| - TrailingCount(s, drop)]
  {
    LeadingStopsAt(s, drop, k);
    TrailingStopsAt(s, drop, k);
  }

  /** An occurrence inside a slice is an occurrence in the slice, shifted by its start. */
  lemma OccursInSlice(s: string, t: string, k: int, a: int, e: int)
    requires 0 <= a <= k && k + |t| <= e <= |s| && OccursAt(s, t, k)
    ensures OccursAt(s[a..e], t, k - a)
  {
    var u := s[a..e];
    assert forall i :: 0 <= i < |t| ==> u[k - a + i] == s[k + i] == t[i];
    assert u[k - a..k - a + |t|] == t;
  }

  /** The occurrence at `k` survives stripping, shifted left by the removed prefix. */
  lemma StripKeepsOccurrence(s: string, t: string, drop: char -> bool, k: int)
    requires OccursAt(s, t, k)
    requires t != [] && !drop(t[0]) && !drop(t[|t| - 1])
    ensures LeadingCount(s, drop) <= k
    ensures OccursAt(Strip(s, drop), t, k - LeadingCount(s, drop))
  {
    assert s[k..k + |t|][0] == s[k];
    assert s[k..k + |t|][|t| - 1] == s[k + |t| - 1];
    StripSlice(s, drop, k);
    TrailingStopsAt(s, drop, k + |t| - 1);
    OccursInSlice(s, t, k, LeadingCount(s, drop), |s| - TrailingCount(s, drop));
  }

  /** An occurrence whose first and last characters are not removable survives stripping. */
  lemma ContainsStrip(s: string, t: string, drop: char -> bool)
    requires Contains(s, t)
    requires t != [] && !drop(t[0]) && !drop(t[|t| - 1])
    ensures Contains(Strip(s, drop), t)
  {
    var k :| 0 <= k <= |s| - |t| && OccursAt(s, t, k);
    StripKeepsOccurrence(s, t, drop, k);
  }

  /** Python's `sep.join(pieces)`. */
  function Join(pieces: seq<string>, sep: string): string
  {
    if |pieces| == 0 then ""
    else if |pieces| == 1 then pieces[0]
    else pieces[0] + sep + Join(pieces[1..], sep)
  }

  /** Position of the first `c` in `s`. */
  function IndexOf(s: string, c: char): (i: nat)
    requires c in s
    ensures i < |s| && s[i] == c && c !in s[..i]
  {
    if s[0] == c then 0 else 1 + IndexOf(s[1..], c)
  }

  /** Python's `s.split(sep)` for a one-character separator; `"".split(",")` is `[""]`. */
  function Split(s: string, sep: char): (pieces: seq<string>)
    ensures |pieces| >= 1
    ensures forall i :: 0 <= i < |pieces| ==> sep !in pieces[i]
    ensures Join(pieces, [sep]) == s
    decreases |s|
  {
    if sep !in s then [s]
    else
      var i := IndexOf(s, sep);
      var rest := Split(s[i + 1..], sep);
      assert s == s[..i] + [sep] + s[i + 1..];
      assert ([s[..i]] + rest)[1..] == rest;
      [s[..i]] + rest
  }

  /** Splitting at a separator that follows a separator-free first piece. */
  lemma SplitCons(p: string, sep: char, t: string)
    requires sep !in p
    ensures Split(p + [sep] + t, sep) == [p] + Split(t, sep)
  {
    var s := p + [sep] + t;
    assert s[|p|] == sep;
    assert s[..|p|] == p;
    var i := IndexOf(s, sep);
    assert i == |p|;
    assert s[..i] == p;
    assert s[i + 1..] == t;
  }

  /** Splitting undoes joining when no piece contains the separator. */
  lemma {:induction false} SplitJoin(pieces: seq<string>, sep: char)
    requires |pieces| >= 1
    requires forall i :: 0 <= i < |pieces| ==> sep !in pieces[i]
    ensures Split(Join(pieces, [sep]), sep) == pieces
    decreases |pieces|
  {
    if |pieces| == 1 {
      assert Join(pieces, [sep]) == pieces[0];
    } else {
      var rest := pieces[1..];
      assert Join(pieces, [sep]) == pieces[0] + [sep] + Join(rest, [sep]);
      SplitCons(pieces[0], sep, Join(rest, [sep]));
      SplitJoin(rest, sep);
      assert pieces == [pieces[0]] + rest;
    }
  }

  /** A character absent from the text is absent from every piece it splits into. */
  lemma {:induction false} SplitWithout(s: string, sep: char, c: char)
    requires c !in s
    ensures forall i :: 0 <= i < |Split(s, sep)| ==> c !in Split(s, sep)[i]
    decreases |s|
  {
    if sep in s {
      var i := IndexOf(s, sep);
      assert forall k :: 0 <= k < i ==> s[..i][k] == s[k];
      var t := s[i + 1..];
      assert forall k :: 0 <= k < |t| ==> t[k] == s[i + 1 + k];
      SplitWithout(s[i + 1..], sep, c);
    }
  }

  /** A character in neither the pieces nor the separator is absent from their join. */
  lemma {:induction false} JoinWithout(pieces: seq<string>, sep: string, c: char)
    requires c !in sep
    requires forall i :: 0 <= i < |pieces| ==> c !in pieces[i]
    ensures c !in Join(pieces, sep)
    decreases |pieces|
  {
    if |pieces| > 1 {
      JoinWithout(pieces[1..], sep, c);
    }
  }

  /** JavaScript's `s.length`: a character above U+FFFF is two UTF-16 code units. */
  function Utf16Length(s: string): (n: nat)
    ensures |s| <= n <= 2 * |s|
    ensures (forall k :: 0 <= k < |s| ==> s[k] as int <= 0xFFFF) ==> n == |s|
  {
    if |s| == 0 then 0
    else (if s[0] as int > 0xFFFF then 2 else 1) + Utf16Length(s[1..])
  }

  predicate IsDigit(c: char) {
    '0' <= c <= '9'
  }

  predicate AllDigits(s: string) {
    forall k :: 0 <= k < |s| ==> IsDigit(s[k])
  }

  function DigitChar(d: nat): (c: char)
    requires d < 10
    ensures IsDigit(c) && c as int - '0' as int == d
  {
    ('0' as int + d) as char
  }

  /** The number a string of decimal digits denotes. */
  function ValueOf(s: string): nat
    requires AllDigits(s)
  {
    if |s| == 0 then 0
    else 10 * ValueOf(s[..|s| - 1]) + (s[|s| - 1] as int - '0' as int)
  }

  /** JavaScript's `${n}` for a non-negative integer: shortest decimal digits denoting `n`. */
  function Decimal(n: nat): (r: string)
    ensures |r| >= 1 && AllDigits(r)
    ensures ValueOf(r) == n
    ensures |r| == 1 || r[0] != '0'
  {
    if n < 10 then [DigitChar(n)]
    else
      var r := Decimal(n / 10) + [DigitChar(n % 10)];
      assert r[..|r| - 1] == Decimal(n / 10);
      r
  }
}
