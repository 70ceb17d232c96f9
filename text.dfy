/**
 * The few `str` operations the proxy and the bot rely on: prefix and suffix
 * tests, `split`, `strip`/`rstrip`, ASCII `lower`, `str()` of a natural
 * number and `int()` on ASCII text. Strings are sequences of characters.
 */
module Text {
  import opened Wrappers

  predicate StartsWith(s: string, p: string) {
    |p| <= |s| && s[..|p|] == p
  }

  predicate EndsWith(s: string, p: string) {
    |p| <= |s| && s[|s| - |p|..] == p
  }

  predicate IsDigit(c: char) {
    '0' <= c <= '9'
  }

  predicate IsAsciiLetter(c: char) {
    'a' <= c <= 'z' || 'A' <= c <= 'Z'
  }

  /** The class `[a-zA-Z0-9]`. */
  predicate IsAsciiAlnum(c: char) {
    IsDigit(c) || IsAsciiLetter(c)
  }

  predicate AllDigits(s: string) {
    forall i :: 0 <= i < |s| ==> IsDigit(s[i])
  }

  function DigitValue(c: char): (d: nat)
    requires IsDigit(c)
    ensures d < 10
  {
    (c as int) - ('0' as int)
  }

  function DigitChar(d: nat): (c: char)
    requires d < 10
    ensures IsDigit(c) && DigitValue(c) == d
  {
    ('0' as int + d) as char
  }

  /** The value of a numeral, most significant digit first (leading zeros allowed). */
  function DecimalValue(s: string): nat
    requires AllDigits(s)
  {
    if s == [] then 0 else DecimalValue(s[..|s| - 1]) * 10 + DigitValue(s[|s| - 1])
  }

  /** `str(n)`: the canonical numeral of `n`, no leading zeros. */
  function ShowDecimal(n: nat): (s: string)
    ensures s != [] && AllDigits(s)
    ensures '.' !in s
  {
    if n < 10 then [DigitChar(n)] else ShowDecimal(n / 10) + [DigitChar(n % 10)]
  }

  /** A printed number reads back as the number. */
  lemma {:induction false} ShowDecimalValue(n: nat)
    ensures DecimalValue(ShowDecimal(n)) == n
  {
    var s := ShowDecimal(n);
    if n < 10 {
      assert s[..|s| - 1] == [];
    } else {
      ShowDecimalValue(n / 10);
      assert s[..|s| - 1] == ShowDecimal(n / 10);
      assert DecimalValue(s) == (n / 10) * 10 + n % 10;
    }
  }

  /** `10` to the power `k`. */
  function Pow10(k: nat): (p: nat)
    ensures p >= 1
  {
    if k == 0 then 1 else 10 * Pow10(k - 1)
  }

  /** A number below `10^k` is printed in at most `k` digits. */
  lemma {:induction false} ShowDecimalLength(n: nat, k: nat)
    requires 1 <= k && n < Pow10(k)
    ensures |ShowDecimal(n)| <= k
  {
    if n >= 10 {
      assert k >= 2;
      assert n / 10 < Pow10(k - 1);
      ShowDecimalLength(n / 10, k - 1);
    }
  }

  /** `s.split(sep)`: the fields between separators, at least one, none containing `sep`. */
  function Split(s: string, sep: char): (parts: seq<string>)
    ensures |parts| >= 1
    ensures forall i :: 0 <= i < |parts| ==> sep !in parts[i]
  {
    if s == [] then [""]
    else
      var rest := Split(s[1..], sep);
      if s[0] == sep then [""] + rest else [[s[0]] + rest[0]] + rest[1..]
  }

  /** `sep.join(parts)`. */
  function Join(parts: seq<string>, sep: char): string
    requires |parts| >= 1
  {
    if |parts| == 1 then parts[0] else parts[0] + [sep] + Join(parts[1..], sep)
  }

  /** Splitting and joining again gives back the original text. */
  lemma {:induction false} JoinSplit(s: string, sep: char)
    ensures Join(Split(s, sep), sep) == s
  {
    if s != [] {
      JoinSplit(s[1..], sep);
      var rest := Split(s[1..], sep);
      if s[0] == sep {
        assert Join([""] + rest, sep) == [sep] + Join(rest, sep) by {
          assert ([""] + rest)[1..] == rest;
        }
      } else {
        var parts := [[s[0]] + rest[0]] + rest[1..];
        if |rest| == 1 {
          assert parts == [[s[0]] + rest[0]];
        } else {
          assert parts[1..] == rest[1..];
          assert Join(rest, sep) == rest[0] + [sep] + Join(rest[1..], sep);
        }
      }
    }
  }

  /** A leading field free of the separator splits off as the first part. */
  lemma {:induction false} SplitLeadingField(x: string, sep: char, t: string)
    requires sep !in x
    ensures Split(x + [sep] + t, sep) == [x] + Split(t, sep)
  {
    if x == [] {
      assert x + [sep] + t == [sep] + t;
      assert ([sep] + t)[1..] == t;
    } else {
      SplitLeadingField(x[1..], sep, t);
      assert (x + [sep] + t)[1..] == x[1..] + [sep] + t;
      assert [x[0]] + x[1..] == x;
    }
  }

  /** A text free of the separator is a single field. */
  lemma {:induction false} SplitSingleField(x: string, sep: char)
    requires sep !in x
    ensures Split(x, sep) == [x]
  {
    if x != [] {
      SplitSingleField(x[1..], sep);
      assert [x[0]] + x[1..] == x;
    }
  }

  /** ASCII `lower()` of one character. */
  function LowerChar(c: char): char {
    if 'A' <= c <= 'Z' then (c as int + 32) as char else c
  }

  /** ASCII `lower()`. */
  function Lower(s: string): (r: string)
    ensures |r| == |s|
    ensures forall i :: 0 <= i < |s| ==> r[i] == LowerChar(s[i])
  {
    if s == [] then [] else [LowerChar(s[0])] + Lower(s[1..])
  }

  /** The ASCII characters Python's `str.isspace()` accepts: what `strip()` removes. */
  predicate IsSpace(c: char) {
    c == ' ' || '\t' <= c <= '\r' || '\U{1c}' <= c <= '\U{1f}'
  }

  /**
   * The ASCII characters `int()` skips around a numeral: C's `isspace`, which
   * does not take the separators \x1c to \x1f that `str.isspace()` accepts.
   */
  predicate IsIntSpace(c: char) {
    c == ' ' || '\t' <= c <= '\r'
  }

  /** Every character of `s` is whitespace of the class `ws`. */
  predicate AllIn(s: string, ws: char -> bool) {
    forall k :: 0 <= k < |s| ==> ws(s[k])
  }

  /** The length of the leading run of `ws` whitespace. */
  function LeadingSpace(s: string, ws: char -> bool): (n: nat)
    ensures n <= |s|
    ensures forall k :: 0 <= k < n ==> ws(s[k])
    ensures n == |s| || !ws(s[n])
  {
    if s != [] && ws(s[0]) then 1 + LeadingSpace(s[1..], ws) else 0
  }

  /** The length of the trailing run of `ws` whitespace. */
  function TrailingSpace(s: string, ws: char -> bool): (n: nat)
    ensures n <= |s|
    ensures forall k :: |s| - n <= k < |s| ==> ws(s[k])
    ensures n == |s| || !ws(s[|s| - n - 1])
  {
    if s != [] && ws(s[|s| - 1]) then 1 + TrailingSpace(s[..|s| - 1], ws) else 0
  }

  /** `s` is `r` with only `ws` whitespace around it. */
  predicate SpaceAround(s: string, r: string, ws: char -> bool) {
    exists i :: 0 <= i <= |s| - |r| && s[i..i + |r|] == r && AllIn(s[..i], ws) && AllIn(s[i + |r|..], ws)
  }

  /**
   * Cutting a leading run of `i` and a trailing run of `m` whitespace
   * characters, each as long as it goes, leaves a text with no whitespace at
   * either end and only whitespace around it.
   */
  lemma TrimmedEnds(s: string, i: nat, m: nat, ws: char -> bool)
    requires i + m <= |s|
    requires forall k :: 0 <= k < i ==> ws(s[k])
    requires forall k :: |s| - m <= k < |s| ==> ws(s[k])
    requires i + m == |s| || (!ws(s[i]) && !ws(s[|s| - m - 1]))
    ensures var r := s[i..|s| - m];
      (r == [] || (!ws(r[0]) && !ws(r[|r| - 1]))) && SpaceAround(s, r, ws)
  {
    var j := |s| - m;
    assert AllIn(s[..i], ws) && AllIn(s[j..], ws);
    assert s[i..i + (j - i)] == s[i..j];
  }

  /** `s` without its leading and trailing runs of `ws` whitespace. */
  function StripWith(s: string, ws: char -> bool): (r: string)
    ensures r == [] || (!ws(r[0]) && !ws(r[|r| - 1]))
    ensures SpaceAround(s, r, ws)
  {
    var i := LeadingSpace(s, ws);
    var t := s[i..];
    var m := TrailingSpace(t, ws);
    assert forall k :: |s| - m <= k < |s| ==> ws(s[k]) by {
      forall k | |s| - m <= k < |s| ensures ws(s[k]) {
        assert s[k] == t[k - i];
      }
    }
    assert i + m < |s| ==> s[|s| - m - 1] == t[|t| - m - 1];
    TrimmedEnds(s, i, m, ws);
    s[i..|s| - m]
  }

  /** `s.strip()` over ASCII whitespace. */
  function Strip(s: string): (r: string)
    ensures r == [] || (!IsSpace(r[0]) && !IsSpace(r[|r| - 1]))
    ensures SpaceAround(s, r, IsSpace)
  {
    StripWith(s, IsSpace)
  }

  /** A leading whitespace run of length `n` is the one `LeadingSpace` measures. */
  lemma {:induction false} LeadingSpaceIs(s: string, n: nat, ws: char -> bool)
    requires n <= |s|
    requires forall k :: 0 <= k < n ==> ws(s[k])
    requires n == |s| || !ws(s[n])
    ensures LeadingSpace(s, ws) == n
  {
    if n > 0 {
      LeadingSpaceIs(s[1..], n - 1, ws);
    }
  }

  /** A trailing whitespace run of length `n` is the one `TrailingSpace` measures. */
  lemma {:induction false} TrailingSpaceIs(s: string, n: nat, ws: char -> bool)
    requires n <= |s|
    requires forall k :: |s| - n <= k < |s| ==> ws(s[k])
    requires n == |s| || !ws(s[|s| - n - 1])
    ensures TrailingSpace(s, ws) == n
  {
    if n > 0 {
      var s' := s[..|s| - 1];
      assert forall k :: |s'| - (n - 1) <= k < |s'| ==> s'[k] == s[k];
      TrailingSpaceIs(s', n - 1, ws);
    }
  }

  /** Text made of whitespace only strips to nothing. */
  lemma StripBlank(u: string, ws: char -> bool)
    requires AllIn(u, ws)
    ensures StripWith(u, ws) == []
  {
    LeadingSpaceIs(u, |u|, ws);
  }

  /** Whitespace `a` before a text starting with non-whitespace is the leading run. */
  lemma LeadingPadding(a: string, t: string, ws: char -> bool)
    requires AllIn(a, ws) && t != [] && !ws(t[0])
    ensures LeadingSpace(a + t, ws) == |a|
  {
    var u := a + t;
    forall k | 0 <= k < |a| ensures ws(u[k]) {
      assert u[k] == a[k];
    }
    assert u[|a|] == t[0];
    LeadingSpaceIs(u, |a|, ws);
  }

  /** Whitespace `b` after a text ending with non-whitespace is the trailing run. */
  lemma TrailingPadding(s: string, b: string, ws: char -> bool)
    requires AllIn(b, ws) && s != [] && !ws(s[|s| - 1])
    ensures TrailingSpace(s + b, ws) == |b|
  {
    var t := s + b;
    forall k | |t| - |b| <= k < |t| ensures ws(t[k]) {
      assert t[k] == b[k - |s|];
    }
    assert t[|t| - |b| - 1] == s[|s| - 1];
    TrailingSpaceIs(t, |b|, ws);
  }

  /** Stripping whitespace padding off a text with no whitespace at its ends gives the text back. */
  lemma StripAround(a: string, s: string, b: string, ws: char -> bool)
    requires AllIn(a, ws) && AllIn(b, ws)
    requires s == [] || (!ws(s[0]) && !ws(s[|s| - 1]))
    ensures StripWith(a + s + b, ws) == s
  {
    var u := a + s + b;
    if s == [] {
      forall k | 0 <= k < |u| ensures ws(u[k]) {
        if k < |a| { assert u[k] == a[k]; } else { assert u[k] == b[k - |a|]; }
      }
      StripBlank(u, ws);
    } else {
      assert u == a + (s + b);
      LeadingPadding(a, s + b, ws);
      assert u[|a|..] == s + b;
      TrailingPadding(s, b, ws);
      assert u[|a|..|u| - |b|] == s;
    }
  }

  // ---------------------------------------------------------------------
  // int()
  // ---------------------------------------------------------------------

  /** `s` with every `_` removed. */
  function DropUnderscores(s: string): (r: string)
    ensures |r| <= |s|
  {
    if s == [] then []
    else if s[0] == '_' then DropUnderscores(s[1..])
    else [s[0]] + DropUnderscores(s[1..])
  }

  /** Removing the underscores from digits and underscores leaves digits only. */
  lemma {:induction false} DropUnderscoresDigits(s: string)
    requires forall k :: 0 <= k < |s| ==> IsDigit(s[k]) || s[k] == '_'
    ensures AllDigits(DropUnderscores(s))
  {
    if s != [] {
      DropUnderscoresDigits(s[1..]);
    }
  }

  /** Text without underscores is left as it is. */
  lemma {:induction false} DropNoUnderscores(s: string)
    requires '_' !in s
    ensures DropUnderscores(s) == s
  {
    if s != [] {
      DropNoUnderscores(s[1..]);
      assert [s[0]] + s[1..] == s;
    }
  }

  /** Decimal digits, single underscores allowed between two of them. */
  predicate IsGroupedNumeral(s: string) {
    s != [] && IsDigit(s[0]) && IsDigit(s[|s| - 1])
    && (forall k :: 0 <= k < |s| ==> IsDigit(s[k]) || s[k] == '_')
    && (forall k :: 0 <= k < |s| - 1 ==> IsDigit(s[k]) || IsDigit(s[k + 1]))
  }

  /**
   * `sys.int_info.default_max_str_digits`: `int()` refuses a decimal numeral
   * of more digits than this, underscores not counted.
   */
  const MaxStrDigits: nat := 4300

  /** A grouped numeral's value, when it has at most `MaxStrDigits` digits; anything else is refused. */
  function ReadGrouped(body: string): Option<int> {
    if IsGroupedNumeral(body) then
      DropUnderscoresDigits(body);
      var digits := DropUnderscores(body);
      if |digits| <= MaxStrDigits then Some(DecimalValue(digits) as int) else None
    else None
  }

  /** `int()` on text already stripped: one optional sign, then a grouped numeral. */
  function ReadSigned(t: string): Option<int> {
    if t != [] && t[0] == '-' then
      match ReadGrouped(t[1..])
      case Some(v) => Some(-v)
      case None => None
    else if t != [] && t[0] == '+' then ReadGrouped(t[1..])
    else ReadGrouped(t)
  }

  /**
   * `int(s)` on ASCII text: the whitespace C's `isspace` accepts is skipped
   * around one optional sign and then digits with single underscores
   * between them, at most `MaxStrDigits` of them; anything else is the
   * `ValueError` case, `None`.
   */
  function ParseInt(s: string): Option<int> {
    ReadSigned(StripWith(s, IsIntSpace))
  }

  /** Whitespace around a text that has none at its ends does not change what `int()` reads. */
  lemma ParseIntPadded(a: string, t: string, b: string)
    requires AllIn(a, IsIntSpace) && AllIn(b, IsIntSpace)
    requires t == [] || (!IsIntSpace(t[0]) && !IsIntSpace(t[|t| - 1]))
    ensures ParseInt(a + t + b) == ReadSigned(t)
  {
    StripAround(a, t, b, IsIntSpace);
  }

  /** A numeral is a grouped numeral with nothing to drop. */
  lemma NumeralIsGrouped(s: string)
    requires s != [] && AllDigits(s)
    ensures IsGroupedNumeral(s) && DropUnderscores(s) == s
  {
    assert '_' !in s by {
      forall k | 0 <= k < |s| ensures s[k] != '_' {
        assert IsDigit(s[k]);
      }
    }
    DropNoUnderscores(s);
  }

  /** A numeral of at most `MaxStrDigits` digits, read as a grouped numeral, gives its value. */
  lemma ReadNumeral(s: string)
    requires s != [] && AllDigits(s) && |s| <= MaxStrDigits
    ensures ReadGrouped(s) == Some(DecimalValue(s) as int)
  {
    NumeralIsGrouped(s);
  }

  /** An unsigned numeral of at most `MaxStrDigits` digits reads as its value. */
  lemma ReadUnsigned(s: string)
    requires s != [] && AllDigits(s) && |s| <= MaxStrDigits
    ensures ReadSigned(s) == Some(DecimalValue(s) as int)
  {
    ReadNumeral(s);
    assert IsDigit(s[0]);
  }

  /** Once stripped, a numeral after `-` reads as its negation. */
  lemma ReadNegative(s: string)
    requires s != [] && AllDigits(s) && |s| <= MaxStrDigits
    ensures ReadSigned(['-'] + s) == Some(-(DecimalValue(s) as int))
  {
    var t := ['-'] + s;
    assert t[1..] == s;
    ReadNumeral(s);
  }

  /** Once stripped, a numeral after `+` reads as its value. */
  lemma ReadPositive(s: string)
    requires s != [] && AllDigits(s) && |s| <= MaxStrDigits
    ensures ReadSigned(['+'] + s) == Some(DecimalValue(s) as int)
  {
    var t := ['+'] + s;
    assert t[1..] == s;
    ReadNumeral(s);
  }

  /** A plain numeral reads as its value, with or without `int()` whitespace around it. */
  lemma ParseIntNumeral(a: string, s: string, b: string)
    requires AllIn(a, IsIntSpace) && AllIn(b, IsIntSpace)
    requires s != [] && AllDigits(s) && |s| <= MaxStrDigits
    ensures ParseInt(a + s + b) == Some(DecimalValue(s) as int)
  {
    ReadUnsigned(s);
    ParseIntPadded(a, s, b);
  }

  /** A numeral of more than `MaxStrDigits` digits is refused, with or without whitespace around it. */
  lemma OverlongNumeralRefused(a: string, s: string, b: string)
    requires AllIn(a, IsIntSpace) && AllIn(b, IsIntSpace)
    requires s != [] && AllDigits(s) && |s| > MaxStrDigits
    ensures ParseInt(a + s + b).None?
  {
    NumeralIsGrouped(s);
    ParseIntPadded(a, s, b);
  }

  /**
   * A separator character next to a numeral makes `int()` refuse it, though
   * `strip()` would remove it: `int()` does not skip \x1c to \x1f.
   */
  lemma SeparatorBeforeNumeral(c: char, s: string)
    requires '\U{1c}' <= c <= '\U{1f}'
    requires s != [] && AllDigits(s)
    ensures IsSpace(c)
    ensures ParseInt([c] + s).None?
  {
    var u := [c] + s;
    LeadingSpaceIs(u, 0, IsIntSpace);
    var t := StripWith(u, IsIntSpace);
    assert t == u[..|u| - TrailingSpace(u, IsIntSpace)];
    assert t[0] == c;
  }

  /** `int()` reads a signed numeral, unpadded, as its value or its negation. */
  lemma ParseIntSigned(sign: char, s: string)
    requires sign == '+' || sign == '-'
    requires s != [] && AllDigits(s) && |s| <= MaxStrDigits
    ensures ParseInt([sign] + s) == Some(if sign == '-' then -(DecimalValue(s) as int) else DecimalValue(s) as int)
  {
    if sign == '-' {
      ReadNegative(s);
    } else {
      ReadPositive(s);
    }
    var t := [sign] + s;
    assert t[|t| - 1] == s[|s| - 1];
    ParseIntPadded([], t, []);
    assert [] + t + [] == t;
  }

  /** Reading back a printed number gives the number: `int(str(n)) == n`, within the digit limit. */
  lemma ParseShowDecimal(n: nat)
    requires |ShowDecimal(n)| <= MaxStrDigits
    ensures ParseInt(ShowDecimal(n)) == Some(n as int)
  {
    ShowDecimalValue(n);
    ParseIntNumeral([], ShowDecimal(n), []);
    assert [] + ShowDecimal(n) + [] == ShowDecimal(n);
  }

  /** Stripped text without a single digit is refused. */
  lemma ReadSignedNeedsDigits(t: string)
    requires forall k :: 0 <= k < |t| ==> !IsDigit(t[k])
    ensures ReadSigned(t).None?
  {
    if t != [] {
      assert !IsDigit(t[0]);
      assert |t| > 1 ==> t[1..][0] == t[1] && !IsDigit(t[1]);
    }
  }

  /** Text without a single digit is refused. */
  lemma ParseIntNeedsDigits(s: string)
    requires forall k :: 0 <= k < |s| ==> !IsDigit(s[k])
    ensures ParseInt(s).None?
  {
    var t := StripWith(s, IsIntSpace);
    var i := LeadingSpace(s, IsIntSpace);
    assert t == s[i..|s| - TrailingSpace(s[i..], IsIntSpace)];
    forall k | 0 <= k < |t| ensures !IsDigit(t[k]) {
      assert t[k] == s[i + k];
    }
    ReadSignedNeedsDigits(t);
  }

  /** `s.rstrip(c)`: `s` without its trailing run of `c`. */
  function RStrip(s: string, c: char): (r: string)
    ensures |r| <= |s| && r == s[..|r|]
    ensures r == [] || r[|r| - 1] != c
    ensures forall k :: |r| <= k < |s| ==> s[k] == c
  {
    if s != [] && s[|s| - 1] == c then RStrip(s[..|s| - 1], c) else s
  }
}
