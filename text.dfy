/**
 * The pieces of Python's str behaviour the pipeline relies on: strip(),
 * split(sep), replace(old, new), int() and float() on decimal text, and the
 * ordering of str values.
 */
module Text {
  import opened Wrappers

  /** The characters str.isspace() accepts, i.e. those str.strip() removes. */
  predicate IsSpace(c: char) {
    || c == ' '
    || ('\t' <= c <= '\r')
    || ('\U{1C}' <= c <= '\U{1F}')
    || c == '\U{85}' || c == '\U{A0}' || c == '\U{1680}'
    || ('\U{2000}' <= c <= '\U{200A}')
    || c == '\U{2028}' || c == '\U{2029}' || c == '\U{202F}' || c == '\U{205F}' || c == '\U{3000}'
  }

  /** Neither the first nor the last character is whitespace. */
  predicate NoEdgeSpace(s: string) {
    s == [] || (!IsSpace(s[0]) && !IsSpace(s[|s| - 1]))
  }

  /** Drops leading whitespace: what remains is a suffix, and only whitespace was dropped. */
  function TrimStart(s: string): (r: string)
    ensures |r| <= |s| && r == s[|s| - |r|..]
    ensures r == [] || !IsSpace(r[0])
    ensures forall i :: 0 <= i < |s| - |r| ==> IsSpace(s[i])
    ensures forall c :: !IsSpace(c) ==> multiset(r)[c] == multiset(s)[c]
  {
    if s != [] && IsSpace(s[0]) then
      assert s == [s[0]] + s[1..];
      TrimStart(s[1..])
    else s
  }

  /** Drops trailing whitespace: what remains is a prefix, and only whitespace was dropped. */
  function TrimEnd(s: string): (r: string)
    ensures |r| <= |s| && r == s[..|r|]
    ensures r == [] || !IsSpace(r[|r| - 1])
    ensures forall i :: |r| <= i < |s| ==> IsSpace(s[i])
    ensures forall c :: !IsSpace(c) ==> multiset(r)[c] == multiset(s)[c]
  {
    if s != [] && IsSpace(s[|s| - 1]) then
      var init := s[..|s| - 1];
      assert s == init + [s[|s| - 1]];
      TrimEnd(init)
    else s
  }

  /** str.strip(): the result has no whitespace at either end and keeps every other character. */
  function Strip(s: string): (r: string)
    ensures NoEdgeSpace(r)
    ensures |r| <= |s|
    ensures forall c :: !IsSpace(c) ==> multiset(r)[c] == multiset(s)[c]
  {
    TrimEnd(TrimStart(s))
  }

  /**
   * str.strip() returns one contiguous slice of the text: only whitespace is
   * cut off, and only at the two ends.
   */
  lemma StripMiddle(s: string)
    ensures exists i, j :: (0 <= i <= j <= |s| && Strip(s) == s[i..j]
      && forall k :: (0 <= k < i || j <= k < |s|) ==> IsSpace(s[k]))
  {
    var i, j := StripBounds(s);
    forall k | 0 <= k < i || j <= k < |s| ensures IsSpace(s[k]) {
      if k < i {
        assert IsSpace(s[k]);
      }
    }
    assert Strip(s) == s[i..j];
  }

  /** Where the slice str.strip() keeps begins and ends. */
  lemma StripBounds(s: string) returns (i: int, j: int)
    ensures 0 <= i <= j <= |s| && Strip(s) == s[i..j]
    ensures forall k :: 0 <= k < i ==> IsSpace(s[k])
    ensures forall k :: j <= k < |s| ==> IsSpace(s[k])
  {
    var front := TrimStart(s);
    var r := TrimEnd(front);
    i := |s| - |front|;
    j := i + |r|;
    SuffixPrefix(s, front, r);
  }

  /**
   * A prefix r of a suffix front of s is the slice of s between them, and what
   * front has after r is what s has after that slice.
   */
  lemma SuffixPrefix(s: string, front: string, r: string)
    requires |r| <= |front| <= |s|
    requires front == s[|s| - |front|..] && r == front[..|r|]
    requires forall k :: |r| <= k < |front| ==> IsSpace(front[k])
    ensures r == s[|s| - |front|..|s| - |front| + |r|]
    ensures forall k :: |s| - |front| + |r| <= k < |s| ==> IsSpace(s[k])
  {
    var i := |s| - |front|;
    forall k | i + |r| <= k < |s| ensures IsSpace(s[k]) {
      assert s[k] == front[k - i];
    }
  }

  /** Stripping keeps every character that is not whitespace. */
  lemma StripKeeps(s: string, c: char)
    requires !IsSpace(c)
    ensures c in Strip(s) <==> c in s
  {
    var r := Strip(s);
    assert multiset(r)[c] == multiset(s)[c];
    assert c in r <==> c in multiset(r);
    assert c in s <==> c in multiset(s);
  }

  /** Stripping a text that has no whitespace at its ends changes nothing. */
  lemma StripUnchanged(s: string)
    requires NoEdgeSpace(s)
    ensures Strip(s) == s
  {
    assert TrimStart(s) == s;
    assert TrimEnd(s) == s;
  }

  /** The position of the first occurrence of c in s. */
  function IndexOf(s: string, c: char): (i: nat)
    requires c in s
    ensures i < |s| && s[i] == c && c !in s[..i]
  {
    if s[0] == c then 0
    else
      var j := IndexOf(s[1..], c);
      assert s[..j + 1] == [s[0]] + s[1..][..j];
      j + 1
  }

  /** IndexOf is the unique position of c that has no earlier c. */
  lemma IndexOfAt(s: string, c: char, i: nat)
    requires i < |s| && s[i] == c && c !in s[..i]
    ensures IndexOf(s, c) == i
  {
  }

  /**
   * str.split(sep): the pieces between the separators, empty pieces included.
   * There is one more piece than there are separators.
   */
  function Split(s: string, sep: char): (fields: seq<string>)
    ensures |fields| == multiset(s)[sep] + 1
    ensures forall i :: 0 <= i < |fields| ==> sep !in fields[i]
    decreases |s|
  {
    if sep !in s then [s]
    else
      var i := IndexOf(s, sep);
      var rest := s[i + 1..];
      assert s == s[..i] + [sep] + rest;
      assert multiset(s)[sep] == multiset(s[..i])[sep] + 1 + multiset(rest)[sep] by {
        assert multiset(s) == multiset(s[..i]) + multiset{sep} + multiset(rest);
      }
      [s[..i]] + Split(rest, sep)
  }

  /** sep.join(fields), the inverse of Split. */
  function Join(fields: seq<string>, sep: char): string
    requires |fields| > 0
  {
    if |fields| == 1 then fields[0] else fields[0] + [sep] + Join(fields[1..], sep)
  }

  /** A text that starts with a separator-free piece and a separator splits there first. */
  lemma SplitFirst(head: string, sep: char, rest: string)
    requires sep !in head
    ensures Split(head + [sep] + rest, sep) == [head] + Split(rest, sep)
  {
    var s := head + [sep] + rest;
    assert s[..|head|] == head && s[|head|] == sep;
    IndexOfAt(s, sep, |head|);
    assert s[|head| + 1..] == rest;
  }

  /** Joining separator-free fields and splitting the result gives the fields back. */
  lemma {:induction false} SplitJoin(fields: seq<string>, sep: char)
    requires |fields| > 0
    requires forall f :: f in fields ==> sep !in f
    ensures Split(Join(fields, sep), sep) == fields
  {
    if |fields| > 1 {
      var head, tail := fields[0], fields[1..];
      calc {
        Split(Join(fields, sep), sep);
        Split(head + [sep] + Join(tail, sep), sep);
        { SplitFirst(head, sep, Join(tail, sep)); }
        [head] + Split(Join(tail, sep), sep);
        { SplitJoin(tail, sep); }
        [head] + tail;
        fields;
      }
    }
  }

  /** Splitting a text and joining the pieces gives the text back. */
  lemma {:induction false} JoinSplit(s: string, sep: char)
    ensures Join(Split(s, sep), sep) == s
    decreases |s|
  {
    if sep in s {
      var i := IndexOf(s, sep);
      var head, rest := s[..i], s[i + 1..];
      var pieces := Split(rest, sep);
      calc {
        Join(Split(s, sep), sep);
        Join([head] + pieces, sep);
        { assert ([head] + pieces)[0] == head && ([head] + pieces)[1..] == pieces; }
        head + [sep] + Join(pieces, sep);
        { JoinSplit(rest, sep); }
        head + [sep] + rest;
        s;
      }
    }
  }

  /** str.replace(target, replacement) for single characters. */
  function ReplaceChar(s: string, target: char, replacement: char): (r: string)
    ensures |r| == |s|
    ensures forall i :: 0 <= i < |s| ==> r[i] == (if s[i] == target then replacement else s[i])
  {
    if s == [] then [] else [if s[0] == target then replacement else s[0]] + ReplaceChar(s[1..], target, replacement)
  }

  /** str.replace(c, ''): every c is gone and every other character is kept. */
  function RemoveChar(s: string, c: char): (r: string)
    ensures c !in r
    ensures forall x :: x != c ==> multiset(r)[x] == multiset(s)[x]
  {
    if s == [] then []
    else
      assert s == [s[0]] + s[1..];
      (if s[0] == c then [] else [s[0]]) + RemoveChar(s[1..], c)
  }

  /**
   * Removal works piece by piece and keeps the order of what remains: a text
   * made of two parts loses the character from each part separately, and a
   * single character goes if and only if it is the one removed.
   */
  lemma {:induction false} RemoveCharAppend(a: string, b: string, c: char)
    ensures RemoveChar(a + b, c) == RemoveChar(a, c) + RemoveChar(b, c)
    ensures forall x :: RemoveChar([x], c) == if x == c then [] else [x]
    decreases |a|
  {
    if a != [] {
      var head := if a[0] == c then [] else [a[0]];
      calc {
        RemoveChar(a + b, c);
        { assert (a + b)[0] == a[0] && (a + b)[1..] == a[1..] + b; }
        head + RemoveChar(a[1..] + b, c);
        { RemoveCharAppend(a[1..], b, c); }
        head + (RemoveChar(a[1..], c) + RemoveChar(b, c));
        (head + RemoveChar(a[1..], c)) + RemoveChar(b, c);
        RemoveChar(a, c) + RemoveChar(b, c);
      }
    } else {
      assert a + b == b;
    }
    forall x ensures RemoveChar([x], c) == if x == c then [] else [x] {
      assert [x][1..] == [];
    }
  }

  /** Removing a character that does not occur changes nothing. */
  lemma {:induction false} RemoveAbsentChar(s: string, c: char)
    requires c !in s
    ensures RemoveChar(s, c) == s
  {
    if s != [] {
      RemoveAbsentChar(s[1..], c);
    }
  }

  /** s starts with the text p (str.startswith). */
  predicate StartsWith(s: string, p: string) {
    |p| <= |s| && s[..|p|] == p
  }

  predicate IsDigit(c: char) {
    '0' <= c <= '9'
  }

  predicate AllDigits(s: string) {
    forall i :: 0 <= i < |s| ==> IsDigit(s[i])
  }

  /** The value of a text of decimal digits, most significant first. */
  function DigitsValue(s: string): nat
    requires AllDigits(s)
  {
    if s == [] then 0 else DigitsValue(s[..|s| - 1]) * 10 + ((s[|s| - 1] as int) - ('0' as int))
  }

  function DigitChar(d: nat): (c: char)
    requires d < 10
    ensures IsDigit(c) && (c as int) - ('0' as int) == d
  {
    (('0' as int) + d) as char
  }

  /** Python's str(n) for a non-negative int. */
  function DecimalString(n: nat): (s: string)
    ensures |s| > 0 && AllDigits(s)
  {
    if n < 10 then [DigitChar(n)] else DecimalString(n / 10) + [DigitChar(n % 10)]
  }

  /** Python's str(n) for any int. */
  function IntToString(n: int): string {
    if n < 0 then "-" + DecimalString(-n) else DecimalString(n)
  }

  /** The digits DecimalString writes denote the number written. */
  lemma {:induction false} DecimalStringValue(n: nat)
    ensures DigitsValue(DecimalString(n)) == n
  {
    var s := DecimalString(n);
    if n < 10 {
      assert s[..0] == [];
    } else {
      assert s[..|s| - 1] == DecimalString(n / 10);
      DecimalStringValue(n / 10);
    }
  }

  /**
   * Python's int() on a text that has already been stripped: an optional sign
   * followed by at least one decimal digit. Anything else raises ValueError,
   * modelled as None.
   */
  function ParseInt(s: string): (r: Option<int>)
    ensures r.Some? ==> |s| > 0 && forall i :: 0 < i < |s| ==> IsDigit(s[i])
  {
    if |s| > 0 && (s[0] == '+' || s[0] == '-') then
      var digits := s[1..];
      if |digits| > 0 && AllDigits(digits) then
        Some(if s[0] == '-' then -(DigitsValue(digits) as int) else DigitsValue(digits))
      else None
    else if |s| > 0 && AllDigits(s) then Some(DigitsValue(s))
    else None
  }

  /** int(str(n)) == n. */
  lemma ParseIntRoundTrip(n: int)
    ensures ParseInt(IntToString(n)) == Some(n)
  {
    if n < 0 {
      var digits := DecimalString(-n);
      var s := "-" + digits;
      assert s[0] == '-' && s[1..] == digits;
      DecimalStringValue(-n);
    } else {
      var digits := DecimalString(n);
      assert IsDigit(digits[0]);
      DecimalStringValue(n);
    }
  }

  /**
   * The whitespace int() skips around its digits: that of str.isspace() less
   * the four separator controls U+001C to U+001F, which int() rejects.
   */
  predicate IsIntSpace(c: char) {
    IsSpace(c) && !('\U{1C}' <= c <= '\U{1F}')
  }

  /** A separator control: str.isspace() holds for it but int() does not skip it. */
  predicate IsSeparatorControl(c: char) {
    '\U{1C}' <= c <= '\U{1F}'
  }

  /** Drops the leading whitespace int() skips, keeping every other character. */
  function IntTrimStart(s: string): (r: string)
    ensures |r| <= |s| && r == s[|s| - |r|..] && (r == [] || !IsIntSpace(r[0]))
    ensures forall i :: 0 <= i < |s| - |r| ==> IsIntSpace(s[i])
    ensures forall c :: !IsIntSpace(c) ==> multiset(r)[c] == multiset(s)[c]
  {
    if s != [] && IsIntSpace(s[0]) then
      assert s == [s[0]] + s[1..];
      IntTrimStart(s[1..])
    else s
  }

  /** Drops the trailing whitespace int() skips, keeping every other character. */
  function IntTrimEnd(s: string): (r: string)
    ensures |r| <= |s| && r == s[..|r|] && (r == [] || !IsIntSpace(r[|r| - 1]))
    ensures forall i :: |r| <= i < |s| ==> IsIntSpace(s[i])
    ensures forall c :: !IsIntSpace(c) ==> multiset(r)[c] == multiset(s)[c]
  {
    if s != [] && IsIntSpace(s[|s| - 1]) then
      var init := s[..|s| - 1];
      assert s == init + [s[|s| - 1]];
      IntTrimEnd(init)
    else s
  }

  /**
   * The text int() reads its digits from: leading and trailing IsIntSpace
   * removed; every other character is kept.
   */
  function IntCore(s: string): (r: string)
    ensures |r| <= |s|
    ensures r == [] || (!IsIntSpace(r[0]) && !IsIntSpace(r[|r| - 1]))
    ensures forall c :: !IsIntSpace(c) ==> multiset(r)[c] == multiset(s)[c]
  {
    var front := IntTrimStart(s);
    var r := IntTrimEnd(front);
    assert r != [] ==> r[0] == front[0];
    r
  }

  /**
   * int() reads one contiguous slice of the text: only whitespace it skips is
   * cut off, and only at the two ends.
   */
  lemma IntCoreMiddle(s: string) returns (i: int, j: int)
    ensures 0 <= i <= j <= |s| && IntCore(s) == s[i..j]
    ensures forall k :: 0 <= k < i ==> IsIntSpace(s[k])
    ensures forall k :: j <= k < |s| ==> IsIntSpace(s[k])
  {
    var front := IntTrimStart(s);
    var r := IntTrimEnd(front);
    i := |s| - |front|;
    j := i + |r|;
    assert IntCore(s) == r;
    IntSuffixPrefix(s, front, r);
  }

  /** SuffixPrefix for the whitespace int() skips. */
  lemma IntSuffixPrefix(s: string, front: string, r: string)
    requires |r| <= |front| <= |s|
    requires front == s[|s| - |front|..] && r == front[..|r|]
    requires forall k :: |r| <= k < |front| ==> IsIntSpace(front[k])
    ensures r == s[|s| - |front|..|s| - |front| + |r|]
    ensures forall k :: |s| - |front| + |r| <= k < |s| ==> IsIntSpace(s[k])
  {
    var i := |s| - |front|;
    forall k | i + |r| <= k < |s| ensures IsIntSpace(s[k]) {
      assert s[k] == front[k - i];
    }
  }

  /** int() reads the whole of a text that has no whitespace at its ends. */
  lemma IntCoreUnchanged(s: string)
    requires NoEdgeSpace(s)
    ensures IntCore(s) == s
  {
    if s != [] {
      assert !IsIntSpace(s[0]) && !IsIntSpace(s[|s| - 1]);
    }
  }

  /** Python's int() on any text: IntCore, then ParseInt. */
  function IntValue(s: string): Option<int> {
    ParseInt(IntCore(s))
  }

  /**
   * int() raises ValueError on any text holding a separator control, wherever
   * it sits: IntCore keeps it and ParseInt accepts only signs and digits.
   */
  lemma SeparatorNotInt(s: string, k: int)
    requires 0 <= k < |s| && IsSeparatorControl(s[k])
    ensures IntValue(s).None?
  {
    var c, r := s[k], IntCore(s);
    assert !IsIntSpace(c) && c in multiset(s);
    assert c in multiset(r);
    var m :| 0 <= m < |r| && r[m] == c;
    NotIntText(r, m);
  }

  /** int() rejects a text holding a character other than a sign or a digit. */
  lemma NotIntText(r: string, m: int)
    requires 0 <= m < |r| && !IsDigit(r[m]) && r[m] != '+' && r[m] != '-'
    ensures ParseInt(r).None?
  {
    if m == 0 {
      assert !AllDigits(r);
    }
  }

  function Pow10(k: nat): (p: nat)
    ensures p >= 1
  {
    if k == 0 then 1 else 10 * Pow10(k - 1)
  }

  /** The number "<whole>.<fraction>" denotes. */
  function PointedValue(whole: string, fraction: string): real
    requires AllDigits(whole) && AllDigits(fraction)
  {
    DigitsValue(whole) as real + DigitsValue(fraction) as real / Pow10(|fraction|) as real
  }

  /** The unsigned part of float()'s decimal notation: digits, optionally a point and more digits. */
  function UnsignedDecimal(body: string): (r: Option<real>)
    ensures r.Some? ==> |body| > 0
  {
    if '.' in body then
      var dot := IndexOf(body, '.');
      var whole := body[..dot];
      var fraction := body[dot + 1..];
      if |whole| + |fraction| > 0 && AllDigits(whole) && AllDigits(fraction) then
        Some(PointedValue(whole, fraction))
      else None
    else if |body| > 0 && AllDigits(body) then Some(DigitsValue(body) as real)
    else None
  }

  /**
   * Python's float() on a stripped text in plain decimal notation: an optional
   * sign, then digits with at most one point and at least one digit. Anything
   * else raises ValueError, modelled as None.
   */
  function ParseDecimal(s: string): (r: Option<real>)
    ensures r.Some? ==> |s| > 0
  {
    if |s| > 0 && (s[0] == '+' || s[0] == '-') then
      match UnsignedDecimal(s[1..])
      case None => None
      case Some(v) => Some(if s[0] == '-' then -v else v)
    else UnsignedDecimal(s)
  }

  /** A price written with two decimals, "<units>.<tenths><hundredths>", from a number of cents. */
  function PriceText(cents: nat): string {
    DecimalString(cents / 100) + "." + [DigitChar(cents % 100 / 10), DigitChar(cents % 10)]
  }

  /** float() reads "<whole>.<fraction>" written in digits as whole + fraction / 10^|fraction|. */
  lemma ParsePointed(whole: string, fraction: string)
    requires |whole| > 0 && AllDigits(whole) && AllDigits(fraction)
    ensures ParseDecimal(whole + "." + fraction) == Some(PointedValue(whole, fraction))
  {
    var s := whole + "." + fraction;
    assert ParseDecimal(s) == UnsignedDecimal(s) by {
      assert s[0] == whole[0];
    }
    assert IndexOf(s, '.') == |whole| by {
      assert s[..|whole|] == whole;
      IndexOfAt(s, '.', |whole|);
    }
    assert s[..|whole|] == whole && s[|whole| + 1..] == fraction;
  }

  /** Two digits denote ten times the first plus the second. */
  lemma TwoDigitsValue(d1: char, d2: char)
    requires IsDigit(d1) && IsDigit(d2)
    ensures DigitsValue([d1, d2]) == ((d1 as int) - ('0' as int)) * 10 + ((d2 as int) - ('0' as int))
  {
    assert [d1, d2][..1] == [d1];
    assert [d1][..0] == [];
    assert DigitsValue([d1]) == (d1 as int) - ('0' as int);
  }

  /** float() reads a two-decimal price back as its number of cents divided by 100. */
  lemma ParsePriceText(cents: nat)
    ensures ParseDecimal(PriceText(cents)) == Some(cents as real / 100.0)
  {
    var units := DecimalString(cents / 100);
    var hundredths := cents % 100;
    var fraction := [DigitChar(hundredths / 10), DigitChar(cents % 10)];
    assert PriceText(cents) == units + "." + fraction;
    assert ParseDecimal(units + "." + fraction) == Some(PointedValue(units, fraction)) by {
      ParsePointed(units, fraction);
    }
    assert DigitsValue(units) == cents / 100 by {
      DecimalStringValue(cents / 100);
    }
    assert DigitsValue(fraction) == hundredths by {
      TwoDigitsValue(fraction[0], fraction[1]);
      HundredthsDigits(cents);
    }
    assert Pow10(|fraction|) == 100;
    assert PointedValue(units, fraction) == (cents / 100) as real + hundredths as real / 100.0;
    CentsSplit(cents);
  }

  /** The hundredths of a number of cents are its tens digit and its units digit. */
  lemma HundredthsDigits(cents: nat)
    ensures cents % 100 / 10 * 10 + cents % 10 == cents % 100
  {
    var q, h := cents / 100, cents % 100;
    assert h == h / 10 * 10 + h % 10;
    assert cents == (q * 10 + h / 10) * 10 + h % 10;
    assert cents % 10 == h % 10;
  }

  /** A number of cents is its whole units plus its hundredths. */
  lemma CentsSplit(cents: nat)
    ensures (cents / 100) as real + (cents % 100) as real / 100.0 == cents as real / 100.0
  {
    var units, hundredths := cents / 100, cents % 100;
    assert cents == units * 100 + hundredths;
    assert cents as real == units as real * 100.0 + hundredths as real;
  }

  /** Python's ordering of str values: by code point, a proper prefix first. */
  predicate LexLessEq(a: string, b: string)
    decreases |a|
  {
    a == [] || (b != [] && (a[0] < b[0] || (a[0] == b[0] && LexLessEq(a[1..], b[1..]))))
  }

  lemma {:induction false} LexTotal(a: string, b: string)
    ensures LexLessEq(a, b) || LexLessEq(b, a)
    decreases |a|
  {
    if a != [] && b != [] && a[0] == b[0] {
      LexTotal(a[1..], b[1..]);
    }
  }

  lemma {:induction false} LexTransitive(a: string, b: string, c: string)
    requires LexLessEq(a, b) && LexLessEq(b, c)
    ensures LexLessEq(a, c)
    decreases |a|
  {
    if a != [] && a[0] == b[0] && b[0] == c[0] {
      LexTransitive(a[1..], b[1..], c[1..]);
    }
  }

  lemma {:induction false} LexAntisymmetric(a: string, b: string)
    requires LexLessEq(a, b) && LexLessEq(b, a)
    ensures a == b
    decreases |a|
  {
    if a != [] {
      LexAntisymmetric(a[1..], b[1..]);
      assert a == [a[0]] + a[1..] && b == [b[0]] + b[1..];
    }
  }
}
