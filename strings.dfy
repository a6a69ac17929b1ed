/** The parts of `java.lang.String` and of Java integer arithmetic that the
    plugin relies on, stated over `seq<char>` and unbounded `int`. */
module Strings {
  import opened Wrappers

  // ---------------------------------------------------------------------
  // Occurrences
  // ---------------------------------------------------------------------

  predicate StartsWith(s: string, p: string) {
    |p| <= |s| && s[..|p|] == p
  }

  /** `p` occurs in `s` starting at index `i`. */
  predicate OccursAt(s: string, p: string, i: nat) {
    i + |p| <= |s| && s[i..i + |p|] == p
  }

  /** `String.contains`. */
  predicate Contains(s: string, p: string) {
    exists i: nat :: i <= |s| && OccursAt(s, p, i)
  }

  /** A pattern whose first character the text lacks does not occur in it. */
  lemma AbsentFirstChar(s: string, p: string)
    requires |p| > 0 && p[0] !in s
    ensures !Contains(s, p)
  {
    forall i: nat | i <= |s| ensures !OccursAt(s, p, i) {
      if i + |p| <= |s| {
        assert s[i..i + |p|][0] == s[i];
      }
    }
  }

  /** Occurrences in a suffix are the occurrences in the text, shifted. */
  lemma OccursAtDrop(s: string, p: string, k: nat, i: nat)
    requires k <= |s|
    ensures OccursAt(s[k..], p, i) <==> OccursAt(s, p, i + k)
  {
    if i + k + |p| <= |s| {
      assert s[k..][i..i + |p|] == s[i + k..i + k + |p|];
    }
  }

  lemma ContainsDrop(s: string, p: string, k: nat)
    requires k <= |s| && !Contains(s, p)
    ensures !Contains(s[k..], p)
  {
    forall i: nat | i <= |s[k..]| ensures !OccursAt(s[k..], p, i) {
      OccursAtDrop(s, p, k, i);
    }
  }

  lemma ContainsTail(s: string, p: string)
    requires |s| > 0 && !Contains(s, p)
    ensures !Contains(s[1..], p)
  {
    ContainsDrop(s, p, 1);
  }

  /** If `p` occurs in `s` but not at its start, it occurs in `s[1..]`. */
  lemma ContainsLater(s: string, p: string)
    requires Contains(s, p) && !StartsWith(s, p)
    ensures |s| > 0 && Contains(s[1..], p)
  {
    var i: nat :| i <= |s| && OccursAt(s, p, i);
    assert s[..|p|] == s[0..|p|];
    OccursAtDrop(s, p, 1, i - 1);
  }

  /** An occurrence in a prefix is an occurrence in the text. */
  lemma OccursInPrefix(s: string, h: string, p: string, i: nat)
    requires StartsWith(s, h)
    ensures OccursAt(h, p, i) ==> OccursAt(s, p, i)
  {
    if i + |p| <= |h| {
      assert s[..|h|][i..i + |p|] == s[i..i + |p|];
    }
  }

  /** A text shorter than the pattern does not contain it. */
  lemma ContainsShort(s: string, p: string)
    requires |s| < |p|
    ensures !Contains(s, p)
  {
  }

  lemma ContainsPrefix(s: string, p: string)
    requires StartsWith(s, p)
    ensures Contains(s, p)
  {
    assert OccursAt(s, p, 0);
  }

  // ---------------------------------------------------------------------
  // String.replace(CharSequence, CharSequence)
  // ---------------------------------------------------------------------

  /** Literal replacement of every non-overlapping occurrence of `p`,
      scanning from the left, as `String.replace` does. Every target the
      plugin uses is a non-empty constant. */
  function Replace(s: string, p: string, r: string): string
    requires |p| > 0
    decreases |s|
  {
    if |s| < |p| then s
    else if s[..|p|] == p then r + Replace(s[|p|..], p, r)
    else [s[0]] + Replace(s[1..], p, r)
  }

  /** A text in which the target does not occur is returned unchanged. */
  lemma {:induction false} ReplaceAbsent(s: string, p: string, r: string)
    requires |p| > 0 && !Contains(s, p)
    ensures Replace(s, p, r) == s
  {
    if |s| >= |p| {
      assert !OccursAt(s, p, 0);
      ContainsTail(s, p);
      ReplaceAbsent(s[1..], p, r);
    }
  }

  /** Replacing a target by itself changes nothing. */
  lemma {:induction false} ReplaceSelf(s: string, p: string)
    requires |p| > 0
    ensures Replace(s, p, p) == s
  {
    if |s| >= |p| {
      if s[..|p|] == p {
        ReplaceSelf(s[|p|..], p);
        assert s == s[..|p|] + s[|p|..];
      } else {
        ReplaceSelf(s[1..], p);
        assert s == [s[0]] + s[1..];
      }
    }
  }

  /** A text that starts with the target has its replacement first. */
  lemma ReplaceAtStart(s: string, p: string, r: string)
    requires |p| > 0 && |p| <= |s| && s[..|p|] == p
    ensures Replace(s, p, r) == r + Replace(s[|p|..], p, r)
  {
  }

  /** The head of the text before the first possible occurrence is kept. */
  lemma {:induction false} ReplaceAppend(a: string, b: string, p: string, r: string)
    requires |p| > 0 && forall i: nat :: i < |a| ==> !OccursAt(a + b, p, i)
    ensures Replace(a + b, p, r) == a + Replace(b, p, r)
  {
    if a != [] {
      assert !OccursAt(a + b, p, 0);
      assert (a + b)[1..] == a[1..] + b;
      forall i: nat | i < |a[1..]| ensures !OccursAt(a[1..] + b, p, i) {
        OccursAtDrop(a + b, p, 1, i);
      }
      ReplaceAppend(a[1..], b, p, r);
      if |a + b| >= |p| {
        assert (a + b)[..|p|] == (a + b)[0..|p|];
        calc {
          Replace(a + b, p, r);
          [a[0]] + Replace(a[1..] + b, p, r);
          [a[0]] + (a[1..] + Replace(b, p, r));
          ([a[0]] + a[1..]) + Replace(b, p, r);
          { assert [a[0]] + a[1..] == a; }
          a + Replace(b, p, r);
        }
      } else {
        assert |b| < |p|;
      }
    } else {
      assert a + b == b;
    }
  }

  /** Every target of a replacement chain is non-empty. */
  predicate NonEmptyTargets(pairs: seq<(string, string)>) {
    forall k :: 0 <= k < |pairs| ==> |pairs[k].0| > 0
  }

  /** A chain of literal replaces, applied in order. */
  function ReplaceEach(s: string, pairs: seq<(string, string)>): string
    requires NonEmptyTargets(pairs)
    decreases |pairs|
  {
    if pairs == [] then s else ReplaceEach(Replace(s, pairs[0].0, pairs[0].1), pairs[1..])
  }

  /** A chain none of whose targets occurs in the text leaves it unchanged. */
  lemma {:induction false} ReplaceEachAbsent(s: string, pairs: seq<(string, string)>)
    requires NonEmptyTargets(pairs)
    requires forall k :: 0 <= k < |pairs| ==> !Contains(s, pairs[k].0)
    ensures ReplaceEach(s, pairs) == s
    decreases |pairs|
  {
    if pairs != [] {
      ReplaceAbsent(s, pairs[0].0, pairs[0].1);
      ReplaceEachAbsent(s, pairs[1..]);
    }
  }

  /** One more replace at the end of a chain. */
  lemma {:induction false} ReplaceEachSnoc(s: string, pairs: seq<(string, string)>, p: string, v: string)
    requires NonEmptyTargets(pairs) && |p| > 0
    ensures NonEmptyTargets(pairs + [(p, v)])
    ensures ReplaceEach(s, pairs + [(p, v)]) == Replace(ReplaceEach(s, pairs), p, v)
    decreases |pairs|
  {
    if pairs == [] {
      assert pairs + [(p, v)] == [(p, v)];
    } else {
      assert (pairs + [(p, v)])[1..] == pairs[1..] + [(p, v)];
      ReplaceEachSnoc(Replace(s, pairs[0].0, pairs[0].1), pairs[1..], p, v);
    }
  }

  // ---------------------------------------------------------------------
  // String.split(literal delimiter)
  // ---------------------------------------------------------------------

  /** The pieces between the (leftmost, non-overlapping) occurrences of `d`,
      before Java drops trailing empty strings. */
  function SplitRaw(s: string, d: string): (r: seq<string>)
    requires |d| > 0
    ensures |r| >= 1
    decreases |s|
  {
    if |s| < |d| then [s]
    else if s[..|d|] == d then [""] + SplitRaw(s[|d|..], d)
    else
      var t := SplitRaw(s[1..], d);
      [[s[0]] + t[0]] + t[1..]
  }

  /** Joins pieces with a separator: the inverse of `SplitRaw`. */
  function Join(ps: seq<string>, d: string): string
    requires |ps| >= 1
  {
    if |ps| == 1 then ps[0] else ps[0] + d + Join(ps[1..], d)
  }

  lemma {:induction false} JoinSplitRaw(s: string, d: string)
    requires |d| > 0
    ensures Join(SplitRaw(s, d), d) == s
    decreases |s|
  {
    if |s| < |d| {
    } else if s[..|d|] == d {
      JoinSplitRaw(s[|d|..], d);
      var t := SplitRaw(s[|d|..], d);
      assert SplitRaw(s, d) == [""] + t;
      assert ([""] + t)[1..] == t;
      assert s == s[..|d|] + s[|d|..];
    } else {
      JoinSplitRaw(s[1..], d);
      var t := SplitRaw(s[1..], d);
      var u := [[s[0]] + t[0]] + t[1..];
      assert SplitRaw(s, d) == u;
      if |t| == 1 {
        assert s == [s[0]] + s[1..];
      } else {
        assert u[1..] == t[1..];
        assert s == [s[0]] + s[1..];
      }
    }
  }

  /** No piece of a split holds the delimiter. */
  lemma {:induction false} SplitRawPiecesFree(s: string, d: string)
    requires |d| > 0
    ensures forall k :: 0 <= k < |SplitRaw(s, d)| ==> !Contains(SplitRaw(s, d)[k], d)
    decreases |s|
  {
    if |s| < |d| {
      ContainsShort(s, d);
    } else if s[..|d|] == d {
      SplitRawPiecesFree(s[|d|..], d);
      var t := SplitRaw(s[|d|..], d);
      assert SplitRaw(s, d) == [""] + t;
      ContainsShort("", d);
    } else {
      SplitRawPiecesFree(s[1..], d);
      var t := SplitRaw(s[1..], d);
      var head := [s[0]] + t[0];
      assert SplitRaw(s, d) == [head] + t[1..];
      SplitRawFirst(s[1..], d);
      assert StartsWith(s, head);
      assert head[1..] == t[0];
      forall i: nat | i <= |head| ensures !OccursAt(head, d, i) {
        OccursInPrefix(s, head, d, i);
        if i == 0 {
          assert s[..|d|] == s[0..|d|];
        } else {
          OccursAtDrop(head, d, 1, i - 1);
        }
      }
    }
  }

  /** The first piece is a prefix of the text. */
  lemma {:induction false} SplitRawFirst(s: string, d: string)
    requires |d| > 0
    ensures StartsWith(s, SplitRaw(s, d)[0])
    decreases |s|
  {
    if |s| >= |d| && s[..|d|] != d {
      SplitRawFirst(s[1..], d);
    }
  }

  /** No piece is longer than the text. */
  lemma {:induction false} SplitRawPiecesBounded(s: string, d: string)
    requires |d| > 0
    ensures forall k :: 0 <= k < |SplitRaw(s, d)| ==> |SplitRaw(s, d)[k]| <= |s|
    decreases |s|
  {
    if |s| < |d| {
    } else if s[..|d|] == d {
      SplitRawPiecesBounded(s[|d|..], d);
    } else {
      SplitRawPiecesBounded(s[1..], d);
    }
  }

  /** When the delimiter occurs, every piece is strictly shorter than the text. */
  lemma {:induction false} SplitRawPiecesShorter(s: string, d: string)
    requires |d| > 0 && Contains(s, d)
    ensures forall k :: 0 <= k < |SplitRaw(s, d)| ==> |SplitRaw(s, d)[k]| <= |s| - |d|
    decreases |s|
  {
    var i: nat :| OccursAt(s, d, i);
    if s[..|d|] == d {
      SplitRawPiecesBounded(s[|d|..], d);
    } else {
      ContainsLater(s, d);
      SplitRawPiecesShorter(s[1..], d);
    }
  }

  /** The first piece ends at the first delimiter. */
  lemma {:induction false} SplitRawFirstPiece(p: string, c: char, rest: string)
    requires c !in p
    ensures SplitRaw(p + [c] + rest, [c])[0] == p
  {
    var s := p + [c] + rest;
    if p != [] {
      assert s[..1] == [p[0]];
      assert s[1..] == p[1..] + [c] + rest;
      SplitRawFirstPiece(p[1..], c, rest);
      assert p == [p[0]] + p[1..];
    } else {
      assert s[..1] == [c];
    }
  }

  /** Without the delimiter there is one piece, the text itself. */
  lemma {:induction false} SplitRawWithout(s: string, c: char)
    requires !Contains(s, [c])
    ensures SplitRaw(s, [c]) == [s]
    decreases |s|
  {
    if |s| >= 1 {
      assert !OccursAt(s, [c], 0);
      ContainsTail(s, [c]);
      SplitRawWithout(s[1..], c);
      assert [s[0]] + s[1..] == s;
    }
  }

  /** Splitting at a delimiter between two texts splits each of them. */
  lemma {:induction false} SplitRawConcat(a: string, c: char, b: string)
    ensures SplitRaw(a + [c] + b, [c]) == SplitRaw(a, [c]) + SplitRaw(b, [c])
    decreases |a|
  {
    var s := a + [c] + b;
    if a == [] {
      assert s[..1] == [c] && s[1..] == b;
    } else if a[0] == c {
      assert s[..1] == [c] && s[1..] == a[1..] + [c] + b;
      assert a[..1] == [c];
      SplitRawConcat(a[1..], c, b);
    } else {
      assert s[..1] == [a[0]] && s[1..] == a[1..] + [c] + b;
      assert a[..1] != [c];
      SplitRawConcat(a[1..], c, b);
    }
  }

  /** Java removes trailing empty strings from the result of a split. */
  function DropTrailingEmpty(ps: seq<string>): (r: seq<string>)
    ensures |r| <= |ps| && r == ps[..|r|]
    ensures r == [] || r[|r| - 1] != ""
    ensures forall k :: |r| <= k < |ps| ==> ps[k] == ""
  {
    if |ps| > 0 && ps[|ps| - 1] == "" then DropTrailingEmpty(ps[..|ps| - 1]) else ps
  }

  /** `String.split` with a delimiter that is matched literally: without a
      match the result is the text itself; otherwise the pieces, minus
      trailing empty strings. */
  function Split(s: string, d: string): (r: seq<string>)
    requires |d| > 0
    ensures !Contains(s, d) ==> r == [s]
    ensures forall k :: 0 <= k < |r| ==> !Contains(r[k], d)
    ensures Contains(s, d) ==> forall k :: 0 <= k < |r| ==> |r[k]| < |s|
  {
    SplitRawPiecesFree(s, d);
    if !Contains(s, d) then
      [s]
    else
      SplitRawPiecesShorter(s, d);
      DropTrailingEmpty(SplitRaw(s, d))
  }

  // ---------------------------------------------------------------------
  // String.trim()
  // ---------------------------------------------------------------------

  /** `trim` removes every character up to U+0020 from both ends. */
  predicate IsTrimmed(c: char) { c <= ' ' }

  /** The index of the first kept character at or after `i`. */
  function KeptFrom(s: string, i: nat): (j: nat)
    requires i <= |s|
    ensures i <= j <= |s|
    ensures forall k :: i <= k < j ==> IsTrimmed(s[k])
    ensures j < |s| ==> !IsTrimmed(s[j])
    decreases |s| - i
  {
    if i < |s| && IsTrimmed(s[i]) then KeptFrom(s, i + 1) else i
  }

  /** The index just past the last kept character in `s[lo..j]`. */
  function KeptUntil(s: string, lo: nat, j: nat): (i: nat)
    requires lo <= j <= |s|
    ensures lo <= i <= j
    ensures forall k :: i <= k < j ==> IsTrimmed(s[k])
    ensures i > lo ==> !IsTrimmed(s[i - 1])
    decreases j
  {
    if j > lo && IsTrimmed(s[j - 1]) then KeptUntil(s, lo, j - 1) else j
  }

  /** Where the result of `trim` starts and ends in the text. */
  function TrimFrom(s: string): nat { KeptFrom(s, 0) }

  function TrimTo(s: string): (j: nat)
    ensures TrimFrom(s) <= j <= |s|
  {
    KeptUntil(s, TrimFrom(s), |s|)
  }

  /** `String.trim`: the slice between the leading and trailing blank
      characters, which has no blank character at either end. */
  function Trim(s: string): (r: string)
    ensures |r| <= |s|
    ensures forall k :: 0 <= k < TrimFrom(s) ==> IsTrimmed(s[k])
    ensures forall k :: TrimTo(s) <= k < |s| ==> IsTrimmed(s[k])
    ensures r == [] || (!IsTrimmed(r[0]) && !IsTrimmed(r[|r| - 1]))
  {
    s[TrimFrom(s)..TrimTo(s)]
  }

  // ---------------------------------------------------------------------
  // ASCII case mapping (toLowerCase, toUpperCase, equalsIgnoreCase)
  // ---------------------------------------------------------------------

  function LowerChar(c: char): char {
    if 'A' <= c <= 'Z' then (c as int + 32) as char else c
  }

  function UpperChar(c: char): char {
    if 'a' <= c <= 'z' then (c as int - 32) as char else c
  }

  /** Lower-casing forgets an upper-casing. */
  lemma LowerOfUpper(c: char)
    ensures LowerChar(UpperChar(c)) == LowerChar(c)
  {
  }

  function ToLower(s: string): (r: string)
    ensures |r| == |s| && forall i :: 0 <= i < |s| ==> r[i] == LowerChar(s[i])
  {
    if s == [] then [] else [LowerChar(s[0])] + ToLower(s[1..])
  }

  function ToUpper(s: string): (r: string)
    ensures |r| == |s| && forall i :: 0 <= i < |s| ==> r[i] == UpperChar(s[i])
  {
    if s == [] then [] else [UpperChar(s[0])] + ToUpper(s[1..])
  }

  /** Upper-casing forgets a lower-casing. */
  lemma UpperOfLowerText(s: string)
    ensures ToUpper(ToLower(s)) == ToUpper(s)
  {
    forall i | 0 <= i < |s| ensures ToUpper(ToLower(s))[i] == ToUpper(s)[i] {
      assert ToLower(s)[i] == LowerChar(s[i]);
    }
  }

  /** Text without lower-case letters is its own upper case. */
  lemma UpperOfUpperText(s: string)
    requires forall i :: 0 <= i < |s| ==> !('a' <= s[i] <= 'z')
    ensures ToUpper(s) == s
  {
  }

  predicate EqualsIgnoreCase(a: string, b: string) {
    ToLower(a) == ToLower(b)
  }

  /** Lexicographic comparison of the lower-cased texts, as `compareToIgnoreCase`
      does on ASCII text: negative, zero or positive. */
  function CompareIgnoreCase(a: string, b: string): int {
    CompareChars(ToLower(a), ToLower(b))
  }

  function CompareChars(a: string, b: string): (r: int)
    ensures r == 0 <==> a == b
  {
    if a == [] && b == [] then 0
    else if a == [] then -1
    else if b == [] then 1
    else if a[0] < b[0] then -1
    else if a[0] > b[0] then 1
    else
      var c := CompareChars(a[1..], b[1..]);
      assert a == [a[0]] + a[1..] && b == [b[0]] + b[1..];
      c
  }

  lemma {:induction false} CompareCharsAntisymmetric(a: string, b: string)
    ensures CompareChars(a, b) == -CompareChars(b, a)
  {
    if a != [] && b != [] && a[0] == b[0] {
      CompareCharsAntisymmetric(a[1..], b[1..]);
    }
  }

  lemma {:induction false} CompareCharsTransitive(a: string, b: string, c: string)
    requires CompareChars(a, b) <= 0 && CompareChars(b, c) <= 0
    ensures CompareChars(a, c) <= 0
  {
    if a != [] && b != [] && c != [] && a[0] == b[0] && b[0] == c[0] {
      CompareCharsTransitive(a[1..], b[1..], c[1..]);
    }
  }

  // ---------------------------------------------------------------------
  // Decimal text: Long.toString / Integer.toString and Integer.parseInt
  // ---------------------------------------------------------------------

  predicate IsDigit(c: char) { '0' <= c <= '9' }

  function DigitChar(d: nat): char
    requires d < 10
  {
    ('0' as int + d) as char
  }

  function NatToString(n: nat): (r: string)
    ensures |r| > 0 && forall i :: 0 <= i < |r| ==> IsDigit(r[i])
  {
    if n < 10 then [DigitChar(n)] else NatToString(n / 10) + [DigitChar(n % 10)]
  }

  /** Decimal rendering of an integer, with a leading `-` when negative. */
  function IntToString(i: int): string {
    if i < 0 then "-" + NatToString(-i) else NatToString(i)
  }

  /** The value of a run of decimal digits. */
  function DigitsValue(s: string): nat
    requires forall i :: 0 <= i < |s| ==> IsDigit(s[i])
  {
    if s == [] then 0
    else
      var c := s[|s| - 1];
      assert IsDigit(c);
      DigitsValue(s[..|s| - 1]) * 10 + (c as int - '0' as int)
  }

  lemma {:induction false} DigitsValueOfNatToString(n: nat)
    ensures DigitsValue(NatToString(n)) == n
  {
    if n >= 10 {
      var s := NatToString(n);
      assert s[..|s| - 1] == NatToString(n / 10);
      DigitsValueOfNatToString(n / 10);
    }
  }

  const INT_MIN: int := -0x8000_0000
  const INT_MAX: int := 0x7fff_ffff
  const LONG_MIN: int := -0x8000_0000_0000_0000
  const LONG_MAX: int := 0x7fff_ffff_ffff_ffff

  predicate IsInt32(x: int) { INT_MIN <= x <= INT_MAX }
  predicate IsInt64(x: int) { LONG_MIN <= x <= LONG_MAX }

  /** `Integer.parseInt`: an optional sign and at least one decimal digit,
      whose value fits in 32 bits; anything else throws (here: `None`). */
  function ParseInt(s: string): (r: Option<int>)
    ensures r.Some? ==> IsInt32(r.value)
  {
    var neg := |s| > 0 && s[0] == '-';
    var signed := |s| > 0 && (s[0] == '-' || s[0] == '+');
    var digits := if signed then s[1..] else s;
    if |digits| == 0 || !(forall i :: 0 <= i < |digits| ==> IsDigit(digits[i])) then None
    else
      var mag: int := DigitsValue(digits);
      var v := if neg then -mag else mag;
      if IsInt32(v) then Some(v) else None
  }

  /** `Integer.parseInt(Integer.toString(i)) == i`. */
  lemma ParseIntOfIntToString(i: int)
    requires IsInt32(i)
    ensures ParseInt(IntToString(i)) == Some(i)
  {
    if i < 0 {
      var s := IntToString(i);
      assert s[1..] == NatToString(-i);
      DigitsValueOfNatToString(-i);
    } else {
      var s := NatToString(i);
      assert s[0] != '-' && s[0] != '+';
      DigitsValueOfNatToString(i);
    }
  }

  // ---------------------------------------------------------------------
  // Java integer arithmetic
  // ---------------------------------------------------------------------

  /** Two's-complement wrap-around of `int` arithmetic. */
  function Wrap32(x: int): (r: int)
    ensures IsInt32(r)
    ensures (x - r) % 0x1_0000_0000 == 0
    ensures IsInt32(x) ==> r == x
  {
    (x - INT_MIN) % 0x1_0000_0000 + INT_MIN
  }

  /** Two's-complement wrap-around of `long` arithmetic. */
  function Wrap64(x: int): (r: int)
    ensures IsInt64(r)
    ensures (x - r) % 0x1_0000_0000_0000_0000 == 0
    ensures IsInt64(x) ==> r == x
  {
    (x - LONG_MIN) % 0x1_0000_0000_0000_0000 + LONG_MIN
  }

  function Abs(x: int): nat { if x < 0 then -x else x }

  /** Java's `/` by a positive divisor: the quotient rounded toward zero. */
  function JavaDiv(a: int, b: int): (q: int)
    requires b > 0
    ensures a >= 0 ==> 0 <= q * b <= a < q * b + b
    ensures a < 0 ==> q * b - b < a <= q * b <= 0
  {
    if a >= 0 then
      DivBounds(a, b);
      a / b
    else
      DivBounds(-a, b);
      -((-a) / b)
  }

  /** Euclidean division of a natural number brackets it. */
  lemma DivBounds(a: nat, b: int)
    requires b > 0
    ensures 0 <= (a / b) * b <= a < (a / b) * b + b
  {
    var q, m := a / b, a % b;
    assert a == q * b + m && 0 <= m < b;
  }

  /** Java's `%` by a positive divisor: `a - (a / b) * b`, with the sign of `a`. */
  function JavaRem(a: int, b: int): (m: int)
    requires b > 0
    ensures a == JavaDiv(a, b) * b + m
    ensures a >= 0 ==> 0 <= m < b
    ensures a < 0 ==> -b < m <= 0
  {
    a - JavaDiv(a, b) * b
  }

  /** On a non-negative dividend Java's `%` is Dafny's. */
  lemma JavaRemNonNegative(a: int, b: int)
    requires a >= 0 && b > 0
    ensures JavaRem(a, b) == a % b
  {
    assert JavaDiv(a, b) == a / b;
  }

  /** Division with remainder is unique. */
  lemma ModUnique(x: int, q: int, r: int, n: int)
    requires n > 0 && 0 <= r < n && x == q * n + r
    ensures x % n == r && x / n == q
  {
    var d := q - x / n;
    assert d * n == x % n - r;
  }

  /** Wrapping an intermediate sum changes nothing: `int` addition is
      arithmetic modulo 2^32. */
  lemma WrapAddLeft(a: int, b: int)
    ensures Wrap32(Wrap32(a) + b) == Wrap32(a + b)
  {
    var k := (a - Wrap32(a)) / 0x1_0000_0000;
    assert a - Wrap32(a) == k * 0x1_0000_0000;
    var x := a + b - INT_MIN;
    ModUnique(x - k * 0x1_0000_0000, x / 0x1_0000_0000 - k, x % 0x1_0000_0000, 0x1_0000_0000);
  }

  /** The frame after `c` among `n`: the next one, or the first after the last. */
  function NextFrame(c: int, n: int): int {
    if c + 1 < n then c + 1 else 0
  }

  /** For a cursor inside the frames, `NextFrame` is `(c + 1) % n`. */
  lemma NextFrameIsMod(c: int, n: nat)
    requires n > 0
    ensures 0 <= (c + 1) % n < n
    ensures 0 <= c < n ==> (c + 1) % n == NextFrame(c, n)
  {
  }
}
