/**
 * The Python string primitives the core relies on, over `string` (= `seq<char>`):
 * `lower`, `strip`, `startswith`, `in`, `find`, `split(sep)`, `split()`, `count`,
 * `str(int)`, `int(str)` and the `<` order on strings.
 */
module Text {
  import opened Wrappers

  // ---------------------------------------------------------------------------
  // Characters

  /** Python's `str.isspace` for one character. */
  predicate IsSpace(c: char) {
    c == ' ' || ('\t' <= c <= '\r') || ('\U{1c}' <= c <= '\U{1f}') || c == '\U{85}' || c == '\U{a0}'
    || c == '\U{1680}' || ('\U{2000}' <= c <= '\U{200a}') || c == '\U{2028}' || c == '\U{2029}'
    || c == '\U{202f}' || c == '\U{205f}' || c == '\U{3000}'
  }

  /**
   * Among ASCII characters, `str.isspace` holds for the space, `\t` to `\r` and the
   * separators `\x1c` to `\x1f`; beyond ASCII it holds for, say, `\u3000` but not for the
   * zero-width space `\u200b`.
   */
  lemma IsSpaceCases(c: char)
    ensures c < '\U{80}' ==> (IsSpace(c) <==> c == ' ' || '\t' <= c <= '\r' || '\U{1c}' <= c <= '\U{1f}')
    ensures IsSpace('\U{a0}') && IsSpace('\U{3000}') && !IsSpace('\U{200b}') && !IsSpace('\U{feff}')
  {
  }

  predicate IsDigit(c: char) {
    '0' <= c <= '9'
  }

  /** Lower-casing of one character, restricted to the ASCII letters. */
  function LowerChar(c: char): char {
    if 'A' <= c <= 'Z' then (c as int + 32) as char else c
  }

  /** `s.lower()` (ASCII letters only). */
  function Lower(s: string): string {
    seq(|s|, i requires 0 <= i < |s| => LowerChar(s[i]))
  }

  /** Lower-casing keeps the length, leaves no upper-case letter, and changes only upper-case letters. */
  lemma LowerCases(s: string)
    ensures |Lower(s)| == |s|
    ensures forall i :: 0 <= i < |s| ==> !('A' <= Lower(s)[i] <= 'Z')
    ensures forall i :: 0 <= i < |s| ==> if 'A' <= s[i] <= 'Z' then 'a' <= Lower(s)[i] <= 'z' else Lower(s)[i] == s[i]
  {
  }

  lemma LowerIdempotent(s: string)
    ensures Lower(Lower(s)) == Lower(s)
  {
  }

  lemma LowerAppend(a: string, b: string)
    ensures Lower(a + b) == Lower(a) + Lower(b)
  {
  }

  // ---------------------------------------------------------------------------
  // Prefixes and occurrences

  /** `s.startswith(p)` */
  predicate StartsWith(s: string, p: string) {
    |p| <= |s| && s[..|p|] == p
  }

  /** `p` occurs in `s` starting at index `i`. */
  predicate OccursAt(s: string, p: string, i: int) {
    0 <= i && i + |p| <= |s| && s[i..i + |p|] == p
  }

  /** `p in s` for strings. */
  predicate Contains(s: string, p: string) {
    exists i | 0 <= i <= |s| :: OccursAt(s, p, i)
  }

  /** `any(w in s.lower() for w in words)` */
  predicate MentionsAny(s: string, words: seq<string>) {
    exists w | w in words :: Contains(Lower(s), w)
  }

  /** The first occurrence of `p` in `s` at or after `from`. */
  function FindFrom(s: string, p: string, from: nat): (r: Option<nat>)
    ensures r.Some? ==> from <= r.value && OccursAt(s, p, r.value)
    ensures r.Some? ==> forall k :: from <= k < r.value ==> !OccursAt(s, p, k)
    ensures r.None? ==> forall k :: from <= k ==> !OccursAt(s, p, k)
    decreases |s| - from
  {
    if from + |p| > |s| then None
    else if s[from..from + |p|] == p then Some(from)
    else FindFrom(s, p, from + 1)
  }

  /** `s.find(p)`, with `None` for -1. */
  function Find(s: string, p: string): Option<nat> {
    FindFrom(s, p, 0)
  }

  lemma FindIffContains(s: string, p: string)
    ensures Find(s, p).Some? <==> Contains(s, p)
  {
    if Find(s, p).Some? {
      assert OccursAt(s, p, Find(s, p).value);
    }
  }

  /** An occurrence found by scanning right after a known one. */
  lemma OccursAtAppend(x: string, p: string, r: string)
    ensures OccursAt(x + p + r, p, |x|)
  {
    assert (x + p + r)[|x|..|x| + |p|] == p;
  }

  // ---------------------------------------------------------------------------
  // Splitting and joining

  /** `s.split(sep)` for a non-empty separator: cuts at each occurrence found scanning left to right. */
  function Split(s: string, sep: string): (parts: seq<string>)
    requires |sep| > 0
    ensures |parts| > 0
    decreases |s|
  {
    match Find(s, sep)
    case None => [s]
    case Some(i) => [s[..i]] + Split(s[i + |sep|..], sep)
  }

  /** `sep.join(parts)` */
  function Join(parts: seq<string>, sep: string): string
    requires |parts| > 0
  {
    if |parts| == 1 then parts[0] else parts[0] + sep + Join(parts[1..], sep)
  }

  /** The last element of `s.split(sep)`, i.e. `s.split(sep)[-1]`. */
  function LastPart(s: string, sep: string): string
    requires |sep| > 0
  {
    var parts := Split(s, sep);
    parts[|parts| - 1]
  }

  /** `s.split(sep, 1)[1]`: the text after the first occurrence of `sep`. */
  function AfterFirst(s: string, sep: string): string
    requires |sep| > 0 && Contains(s, sep)
  {
    FindIffContains(s, sep);
    s[Find(s, sep).value + |sep|..]
  }

  /** Splitting and re-joining gives back the original text. */
  lemma {:induction false} JoinSplit(s: string, sep: string)
    requires |sep| > 0
    ensures Join(Split(s, sep), sep) == s
    decreases |s|
  {
    match Find(s, sep)
    case None =>
    case Some(i) =>
      var rest := s[i + |sep|..];
      JoinSplit(rest, sep);
      assert Split(s, sep) == [s[..i]] + Split(rest, sep);
      assert Join(Split(s, sep), sep) == s[..i] + sep + Join(Split(rest, sep), sep);
      assert s == s[..i] + s[i..i + |sep|] + rest;
  }

  lemma SplitWithoutSeparator(s: string, sep: string)
    requires |sep| > 0 && !Contains(s, sep)
    ensures Split(s, sep) == [s]
  {
    FindIffContains(s, sep);
  }

  /** When `sep` occurs, the first part is exactly the text before its first occurrence. */
  lemma SplitWithSeparator(s: string, sep: string)
    requires |sep| > 0 && Contains(s, sep)
    ensures Find(s, sep).Some?
    ensures |Split(s, sep)| >= 2
    ensures Split(s, sep)[0] == s[..Find(s, sep).value]
  {
    FindIffContains(s, sep);
  }

  /** A separator none of whose proper suffixes is also a prefix: two occurrences never overlap. */
  predicate Unbordered(sep: string) {
    forall k :: 0 < k < |sep| ==> sep[k..] != sep[..|sep| - k]
  }

  /** Two overlapping occurrences of `p` exhibit a proper suffix of `p` that is also its prefix. */
  lemma OverlapIsBorder(s: string, p: string, i: int, j: int)
    requires OccursAt(s, p, i) && OccursAt(s, p, j) && i < j < i + |p|
    ensures p[j - i..] == p[..|p| - (j - i)]
  {
    var k := j - i;
    assert p[k..] == s[i + k..i + |p|];
    assert p[..|p| - k] == s[j..j + |p| - k];
  }

  /** Two occurrences of an unbordered pattern are at least its length apart. */
  lemma OccurrencesApart(s: string, p: string, i: int, j: int)
    requires Unbordered(p) && OccursAt(s, p, i) && OccursAt(s, p, j) && i < j
    ensures i + |p| <= j
  {
    if i + |p| > j {
      OverlapIsBorder(s, p, i, j);
      assert false;
    }
  }

  /**
   * Whatever precedes a final occurrence of an unbordered separator, the last part of
   * the split is the text after that occurrence when that text contains no separator.
   */
  lemma {:induction false} LastPartAfterSeparator(x: string, sep: string, r: string)
    requires |sep| > 0 && Unbordered(sep) && !Contains(r, sep)
    ensures LastPart(x + sep + r, sep) == r
    decreases |x|
  {
    var s := x + sep + r;
    OccursAtAppend(x, sep, r);
    var i := Find(s, sep).value;
    assert i <= |x|;
    if i == |x| {
      assert s[i + |sep|..] == r;
      SplitWithoutSeparator(r, sep);
    } else {
      OccurrencesApart(s, sep, i, |x|);
      var x' := x[i + |sep|..];
      assert s[i + |sep|..] == x' + sep + r;
      LastPartAfterSeparator(x', sep, r);
    }
  }

  /** A one-character pattern occurs exactly when that character does. */
  lemma ContainsChar(s: string, ch: char)
    ensures Contains(s, [ch]) <==> ch in s
  {
    if Contains(s, [ch]) {
      var i :| 0 <= i <= |s| && OccursAt(s, [ch], i);
      assert s[i..i + 1][0] == s[i];
    }
    if ch in s {
      var i :| 0 <= i < |s| && s[i] == ch;
      assert s[i..i + 1] == [ch];
      assert OccursAt(s, [ch], i);
    }
  }

  /** The first occurrence of an unbordered separator after a text free of it is right after that text. */
  lemma FindAfterFreePrefix(x: string, sep: string, r: string)
    requires |sep| > 0 && Unbordered(sep) && !Contains(x, sep)
    ensures Find(x + sep + r, sep) == Some(|x|)
  {
    var s := x + sep + r;
    OccursAtAppend(x, sep, r);
    var i := Find(s, sep).value;
    if i < |x| {
      OccurrencesApart(s, sep, i, |x|);
      assert x[i..i + |sep|] == s[i..i + |sep|];
      assert OccursAt(x, sep, i);
      assert false;
    }
  }

  lemma SplitAround(x: string, sep: string, r: string)
    requires |sep| > 0 && Unbordered(sep) && !Contains(x, sep)
    ensures Split(x + sep + r, sep) == [x] + Split(r, sep)
  {
    var s := x + sep + r;
    FindAfterFreePrefix(x, sep, r);
    assert s[..|x|] == x && s[|x| + |sep|..] == r;
  }

  lemma AfterFirstAround(x: string, sep: string, r: string)
    requires |sep| > 0 && Unbordered(sep) && !Contains(x, sep)
    ensures Contains(x + sep + r, sep) && AfterFirst(x + sep + r, sep) == r
  {
    FindAfterFreePrefix(x, sep, r);
    FindIffContains(x + sep + r, sep);
    assert (x + sep + r)[|x| + |sep|..] == r;
  }

  // ---------------------------------------------------------------------------
  // Counting

  /** `s.count(p)`: the non-overlapping occurrences found scanning left to right. */
  function Count(s: string, p: string): (n: nat)
    requires |p| > 0
    ensures n > 0 <==> Contains(s, p)
    decreases |s|
  {
    FindIffContains(s, p);
    match Find(s, p)
    case None => 0
    case Some(i) => 1 + Count(s[i + |p|..], p)
  }

  /** `s.split(sep)` has one more part than `s.count(sep)`. */
  lemma {:induction false} SplitLength(s: string, sep: string)
    requires |sep| > 0
    ensures |Split(s, sep)| == Count(s, sep) + 1
    decreases |s|
  {
    match Find(s, sep)
    case None =>
    case Some(i) => SplitLength(s[i + |sep|..], sep);
  }

  /** Counting a one-character pattern counts that character. */
  lemma {:induction false} CountChar(s: string, c: char)
    ensures Count(s, [c]) == multiset(s)[c]
    decreases |s|
  {
    match Find(s, [c])
    case None =>
      forall k | 0 <= k < |s| ensures s[k] != c {
        assert !OccursAt(s, [c], k);
      }
      assert c !in multiset(s);
    case Some(i) =>
      assert s[i] == c by { assert s[i..i + 1] == [c]; }
      forall k | 0 <= k < i ensures s[k] != c {
        assert !OccursAt(s, [c], k);
      }
      assert c !in multiset(s[..i]);
      assert s == s[..i] + [s[i]] + s[i + 1..];
      CountChar(s[i + 1..], c);
  }

  // ---------------------------------------------------------------------------
  // Whitespace

  /** `s.lstrip()` */
  function StripLeft(s: string): (r: string)
    ensures |r| <= |s| && r == s[|s| - |r|..]
    ensures r == [] || !IsSpace(r[0])
    ensures forall i :: 0 <= i < |s| - |r| ==> IsSpace(s[i])
  {
    if |s| > 0 && IsSpace(s[0]) then StripLeft(s[1..]) else s
  }

  /** `s.rstrip()` */
  function StripRight(s: string): (r: string)
    ensures |r| <= |s| && r == s[..|r|]
    ensures r == [] || !IsSpace(r[|r| - 1])
    ensures forall i :: |r| <= i < |s| ==> IsSpace(s[i])
  {
    if |s| > 0 && IsSpace(s[|s| - 1]) then StripRight(s[..|s| - 1]) else s
  }

  /** `s.strip()` */
  function Strip(s: string): string {
    StripRight(StripLeft(s))
  }

  /** A strip is no longer than the text, has no whitespace at either end, and is empty exactly for an all-whitespace text. */
  lemma StripTrims(s: string)
    ensures |Strip(s)| <= |s|
    ensures Strip(s) == [] || (!IsSpace(Strip(s)[0]) && !IsSpace(Strip(s)[|Strip(s)| - 1]))
    ensures Strip(s) == [] <==> forall i :: 0 <= i < |s| ==> IsSpace(s[i])
  {
    var t := StripLeft(s);
    var r := StripRight(t);
    assert r == [] ==> t == [];
    assert r != [] ==> r[0] == t[0] == s[|s| - |t|];
  }

  /** A text that neither starts nor ends with whitespace is its own strip. */
  lemma StripUnpadded(s: string)
    requires s == [] || (!IsSpace(s[0]) && !IsSpace(s[|s| - 1]))
    ensures Strip(s) == s
  {
  }

  /** The end of the word starting at `i`: the first whitespace at or after `i`. */
  function WordEnd(s: string, i: nat): (j: nat)
    requires i <= |s|
    ensures i <= j <= |s|
    ensures forall k :: i <= k < j ==> !IsSpace(s[k])
    ensures j < |s| ==> IsSpace(s[j])
    ensures i < |s| && !IsSpace(s[i]) ==> i < j
    decreases |s| - i
  {
    if i == |s| || IsSpace(s[i]) then i else WordEnd(s, i + 1)
  }

  /** `s.split()`: the maximal runs of non-whitespace characters, in order. */
  function Words(s: string): (ws: seq<string>)
    ensures forall k :: 0 <= k < |ws| ==> ws[k] != []
    decreases |s|
  {
    var t := StripLeft(s);
    if t == [] then []
    else
      var j := WordEnd(t, 0);
      var word, rest := t[..j], Words(t[j..]);
      assert |word| == j > 0;
      assert forall k :: 0 < k <= |rest| ==> ([word] + rest)[k] == rest[k - 1];
      [word] + rest
  }

  // ---------------------------------------------------------------------------
  // Integers and their decimal text

  function DigitChar(d: nat): (c: char)
    requires d < 10
    ensures IsDigit(c)
  {
    ('0' as int + d) as char
  }

  function DigitValue(c: char): (d: nat)
    requires IsDigit(c)
    ensures d < 10
  {
    c as int - '0' as int
  }

  /** `str(n)` for a non-negative integer. */
  function NatToString(n: nat): (r: string)
    ensures |r| > 0
    ensures forall i :: 0 <= i < |r| ==> IsDigit(r[i])
    decreases n
  {
    if n < 10 then [DigitChar(n)] else NatToString(n / 10) + [DigitChar(n % 10)]
  }

  /** `str(n)` */
  function IntToString(n: int): string {
    if n < 0 then "-" + NatToString(-n) else NatToString(n)
  }

  /** The number a string of decimal digits denotes. */
  function DigitsValue(s: string): nat
    requires forall i :: 0 <= i < |s| ==> IsDigit(s[i])
  {
    if s == [] then 0 else DigitsValue(s[..|s| - 1]) * 10 + DigitValue(s[|s| - 1])
  }

  /** The body of a Python decimal literal: digits, with single underscores only between digits. */
  predicate DigitGroups(t: string) {
    && |t| > 0
    && IsDigit(t[0])
    && IsDigit(t[|t| - 1])
    && (forall i :: 0 <= i < |t| ==> t[i] == '_' || IsDigit(t[i]))
    && (forall i :: 0 < i < |t| - 1 && t[i] == '_' ==> IsDigit(t[i - 1]) && IsDigit(t[i + 1]))
  }

  function RemoveUnderscores(t: string): (r: string)
    ensures (forall i :: 0 <= i < |t| ==> t[i] == '_' || IsDigit(t[i])) ==> forall i :: 0 <= i < |r| ==> IsDigit(r[i])
    ensures (forall i :: 0 <= i < |t| ==> t[i] != '_') ==> r == t
  {
    if t == [] then []
    else (if t[0] == '_' then [] else [t[0]]) + RemoveUnderscores(t[1..])
  }

  function ParseDigits(t: string): Option<nat> {
    if DigitGroups(t) then Some(DigitsValue(RemoveUnderscores(t))) else None
  }

  /** `int(s)`: `None` where Python raises ValueError (ASCII digits only). */
  function ParseInt(s: string): Option<int>
  {
    var t := Strip(s);
    if |t| > 0 && (t[0] == '-' || t[0] == '+') then
      match ParseDigits(t[1..])
      case None => None
      case Some(n) =>
        var v: int := n;
        Some(if t[0] == '-' then -v else v)
    else
      match ParseDigits(t)
      case None => None
      case Some(n) => Some(n)
  }

  /**
   * Only a stripped text that starts with a digit, or with a sign followed by a digit,
   * parses; a minus sign gives a value of at most 0, and no sign a value of at least 0.
   */
  lemma ParseIntShape(s: string)
    ensures ParseInt(s).Some? ==> var t := Strip(s);
              && |t| > 0
              && (IsDigit(t[0]) || ((t[0] == '-' || t[0] == '+') && |t| > 1 && IsDigit(t[1])))
              && (t[0] == '-' ==> ParseInt(s).value <= 0)
              && (t[0] != '-' ==> ParseInt(s).value >= 0)
  {
  }

  lemma {:induction false} DigitsValueOfNat(n: nat)
    ensures DigitsValue(NatToString(n)) == n
    decreases n
  {
    if n >= 10 {
      DigitsValueOfNat(n / 10);
      var s := NatToString(n);
      assert s[..|s| - 1] == NatToString(n / 10);
    }
  }

  lemma ParseNatToString(n: nat)
    ensures ParseDigits(NatToString(n)) == Some(n)
  {
    DigitsValueOfNat(n);
  }

  /** A digit string, bare or after a minus sign, is its own strip. */
  lemma DigitsUnpadded(d: string)
    requires |d| > 0 && forall i :: 0 <= i < |d| ==> IsDigit(d[i])
    ensures Strip(d) == d && Strip("-" + d) == "-" + d
  {
    assert !IsSpace(d[0]) && !IsSpace(d[|d| - 1]);
    StripUnpadded(d);
    var t := "-" + d;
    assert t[|t| - 1] == d[|d| - 1];
    StripUnpadded(t);
  }

  /** A digit string with no sign parses as its digit groups. */
  lemma ParseUnsigned(d: string)
    requires |d| > 0 && IsDigit(d[0]) && Strip(d) == d
    ensures ParseInt(d) == ParseDigits(d)
  {
  }

  /** A minus sign before digits negates their value. */
  lemma ParseNegated(d: string, n: nat)
    requires Strip("-" + d) == "-" + d && ParseDigits(d) == Some(n)
    ensures ParseInt("-" + d) == Some(-(n as int))
  {
    assert ("-" + d)[1..] == d;
  }

  /** `int(str(n)) == n` */
  lemma ParseIntToString(n: int)
    ensures ParseInt(IntToString(n)) == Some(n)
  {
    var m: nat := if n < 0 then -n else n;
    var d := NatToString(m);
    DigitsUnpadded(d);
    ParseNatToString(m);
    if n < 0 {
      ParseNegated(d, m);
    } else {
      ParseUnsigned(d);
    }
  }

  // ---------------------------------------------------------------------------
  // Order on strings

  /** Python's `a < b` on strings: lexicographic by code point, a proper prefix first. */
  predicate StrLess(a: string, b: string) {
    if a == [] then b != []
    else if b == [] then false
    else if a[0] != b[0] then a[0] < b[0]
    else StrLess(a[1..], b[1..])
  }

  lemma {:induction false} StrLessIrreflexive(a: string)
    ensures !StrLess(a, a)
  {
    if a != [] {
      StrLessIrreflexive(a[1..]);
    }
  }

  lemma {:induction false} StrLessAsymmetric(a: string, b: string)
    ensures StrLess(a, b) ==> !StrLess(b, a)
  {
    if a != [] && b != [] && a[0] == b[0] {
      StrLessAsymmetric(a[1..], b[1..]);
    }
  }

  lemma {:induction false} StrLessTotal(a: string, b: string)
    ensures a == b || StrLess(a, b) || StrLess(b, a)
  {
    if a != [] && b != [] && a[0] == b[0] {
      StrLessTotal(a[1..], b[1..]);
      if a[1..] == b[1..] {
        assert a == [a[0]] + a[1..] && b == [b[0]] + b[1..];
      }
    }
  }

  lemma {:induction false} StrLessTransitive(a: string, b: string, c: string)
    ensures StrLess(a, b) && StrLess(b, c) ==> StrLess(a, c)
  {
    if a != [] && b != [] && c != [] && a[0] == b[0] == c[0] {
      StrLessTransitive(a[1..], b[1..], c[1..]);
    }
  }

  /** `not (a < b)` and `not (b < c)` give `not (a < c)`: the order is negatively transitive. */
  lemma StrNotLessTransitive(a: string, b: string, c: string)
    ensures !StrLess(a, b) && !StrLess(b, c) ==> !StrLess(a, c)
  {
    StrLessTotal(a, b);
    StrLessTotal(b, c);
    StrLessTransitive(c, b, a);
    StrLessAsymmetric(a, c);
    StrLessIrreflexive(a);
  }
}
