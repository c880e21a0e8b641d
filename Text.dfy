/**
 * The string operations of the Java runtime that the episode store relies on:
 * `String.join` and `String.split` on a one-character separator, decimal
 * rendering of an integer (`String.valueOf`), `Integer.parseInt`, and the
 * case-insensitive comparison `String.equalsIgnoreCase`.
 */
module Text {
  import opened Wrappers

  // ---------------------------------------------------------------------------
  // Joining and splitting on a separator character
  // ---------------------------------------------------------------------------

  /** `String.join(sep, fields)` for a non-empty list of fields. */
  function Join(fields: seq<string>, sep: char): string
    requires |fields| > 0
  {
    if |fields| == 1 then fields[0] else fields[0] + [sep] + Join(fields[1..], sep)
  }

  /** Every piece between two separators, empty pieces included; never empty. */
  function SplitAll(s: string, sep: char): (r: seq<string>)
    ensures |r| > 0
  {
    if s == [] then [""]
    else
      var rest := SplitAll(s[1..], sep);
      if s[0] == sep then [""] + rest else [[s[0]] + rest[0]] + rest[1..]
  }

  /** Drops the empty strings at the end of a list of fields. */
  function StripTrailingEmpty(fields: seq<string>): (r: seq<string>)
    ensures |r| <= |fields| && r == fields[..|r|]
    ensures r != [] ==> r[|r| - 1] != ""
  {
    if fields != [] && fields[|fields| - 1] == "" then StripTrailingEmpty(fields[..|fields| - 1])
    else fields
  }

  /**
   * `s.split(re)` where `re` matches exactly the one character `sep` and the
   * limit is zero: a string without the separator comes back whole (even when
   * it is empty); otherwise the pieces are returned with trailing empty pieces
   * removed.
   */
  function Split(s: string, sep: char): seq<string>
  {
    if sep !in s then [s] else StripTrailingEmpty(SplitAll(s, sep))
  }

  predicate NoSeparator(fields: seq<string>, sep: char)
  {
    forall k :: 0 <= k < |fields| ==> sep !in fields[k]
  }

  lemma {:induction false} SplitAllFree(s: string, sep: char)
    requires sep !in s
    ensures SplitAll(s, sep) == [s]
  {
    if s != [] {
      SplitAllFree(s[1..], sep);
      assert [s[0]] + s[1..] == s;
    }
  }

  lemma {:induction false} SplitAllCons(a: string, sep: char, b: string)
    requires sep !in a
    ensures SplitAll(a + [sep] + b, sep) == [a] + SplitAll(b, sep)
  {
    var s := a + [sep] + b;
    if a == [] {
      assert s[1..] == b;
    } else {
      assert s[1..] == a[1..] + [sep] + b;
      SplitAllCons(a[1..], sep, b);
      assert [a[0]] + a[1..] == a;
    }
  }

  /** Splitting the joined fields on their separator gives every field back. */
  lemma {:induction false} SplitAllJoin(fields: seq<string>, sep: char)
    requires |fields| > 0 && NoSeparator(fields, sep)
    ensures SplitAll(Join(fields, sep), sep) == fields
  {
    if |fields| == 1 {
      SplitAllFree(fields[0], sep);
    } else {
      SplitAllJoin(fields[1..], sep);
      SplitAllCons(fields[0], sep, Join(fields[1..], sep));
      assert [fields[0]] + fields[1..] == fields;
    }
  }

  lemma {:induction false} JoinHasSeparator(fields: seq<string>, sep: char)
    requires |fields| > 1
    ensures sep in Join(fields, sep)
  {
    var s := Join(fields, sep);
    assert s[|fields[0]|] == sep;
  }

  /** Only empty fields are dropped. */
  lemma {:induction false} StripDropsOnlyEmpty(fields: seq<string>, k: nat)
    requires |StripTrailingEmpty(fields)| <= k < |fields|
    ensures fields[k] == ""
    decreases |fields|
  {
    if fields[|fields| - 1] == "" && k < |fields| - 1 {
      StripDropsOnlyEmpty(fields[..|fields| - 1], k);
    }
  }

  lemma StripKeepsPrefix(p: seq<string>, q: seq<string>)
    requires p != [] && p[|p| - 1] != ""
    ensures |StripTrailingEmpty(p + q)| >= |p| && StripTrailingEmpty(p + q)[..|p|] == p
  {
    var r := StripTrailingEmpty(p + q);
    assert (p + q)[|p| - 1] == p[|p| - 1];
    if |r| < |p| {
      StripDropsOnlyEmpty(p + q, |p| - 1);
    }
    assert (p + q)[..|p|] == p;
  }

  /**
   * Round trip of `split` against `join`: with no separator inside any field
   * and a non-empty last field, splitting the joined line yields the fields.
   */
  lemma SplitJoin(fields: seq<string>, sep: char)
    requires |fields| > 0 && NoSeparator(fields, sep) && fields[|fields| - 1] != ""
    ensures Split(Join(fields, sep), sep) == fields
  {
    SplitAllJoin(fields, sep);
    if |fields| > 1 {
      JoinHasSeparator(fields, sep);
    }
  }

  /**
   * Fields after the first `|p|` do not disturb the first `|p|` pieces of a
   * split, provided the last of those is not empty.
   */
  lemma SplitJoinPrefix(p: seq<string>, q: seq<string>, sep: char)
    requires p != [] && p[|p| - 1] != "" && NoSeparator(p + q, sep)
    ensures |Split(Join(p + q, sep), sep)| >= |p|
    ensures Split(Join(p + q, sep), sep)[..|p|] == p
  {
    SplitAllJoin(p + q, sep);
    if |p + q| > 1 {
      JoinHasSeparator(p + q, sep);
      StripKeepsPrefix(p, q);
    } else {
      assert p + q == p;
    }
  }

  // ---------------------------------------------------------------------------
  // Decimal integers
  // ---------------------------------------------------------------------------

  const MinInt32: int := -0x8000_0000
  const MaxInt32: int := 0x7FFF_FFFF

  /** The values of a Java `int`. */
  type Int32 = x: int | MinInt32 <= x <= MaxInt32

  predicate IsDigit(c: char) { '0' <= c <= '9' }

  predicate AllDigits(s: string) { forall k :: 0 <= k < |s| ==> IsDigit(s[k]) }

  function DigitChar(d: nat): (c: char)
    requires d < 10
    ensures IsDigit(c) && c as int - '0' as int == d
  {
    ('0' as int + d) as char
  }

  /** Decimal digits of `n`, most significant first, no leading zeros. */
  function NatToString(n: nat): (s: string)
  {
    if n < 10 then [DigitChar(n)] else NatToString(n / 10) + [DigitChar(n % 10)]
  }

  /** `String.valueOf(int)` / `%d`: a minus sign for negatives, then the digits. */
  function IntToString(i: int): string
  {
    if i < 0 then "-" + NatToString(-i) else NatToString(i)
  }

  /** The value of a string of decimal digits (0 for the empty string). */
  function DigitsValue(s: string): nat
    requires AllDigits(s)
  {
    if s == [] then 0 else DigitsValue(s[..|s| - 1]) * 10 + (s[|s| - 1] as int - '0' as int)
  }

  /**
   * The number `Integer.parseInt` reads before its range check: an optional
   * leading '+' or '-', then one or more decimal digits and nothing else.
   */
  function ParseInteger(s: string): Option<int>
  {
    if s == [] then None
    else if s[0] == '-' || s[0] == '+' then
      var digits := s[1..];
      if digits != [] && AllDigits(digits) then
        Some(if s[0] == '-' then 0 - DigitsValue(digits) else DigitsValue(digits))
      else None
    else if AllDigits(s) then Some(DigitsValue(s))
    else None
  }

  /** Leading zeros removed, keeping at least one character. */
  function StripZeros(d: string): string
  {
    if |d| > 1 && d[0] == '0' then StripZeros(d[1..]) else d
  }

  /**
   * The text with its sign and leading zeros normalised: no '+', no leading
   * zeros, and no '-' in front of zero.
   */
  function Normalized(s: string): string
  {
    if s != [] && s[0] == '+' then StripZeros(s[1..])
    else if s != [] && s[0] == '-' then
      var t := StripZeros(s[1..]);
      if t == "0" then t else "-" + t
    else StripZeros(s)
  }

  /**
   * `Integer.parseInt`: fails on malformed text and on values outside `int`;
   * on success the value is the one whose decimal text is the input with its
   * sign and leading zeros normalised.
   */
  function ParseInt32(s: string): (r: Option<Int32>)
    ensures r.Some? <==> ParseInteger(s).Some? && MinInt32 <= ParseInteger(s).value <= MaxInt32
    ensures r.Some? ==> r.value == ParseInteger(s).value
    ensures r.Some? ==> IntToString(r.value) == Normalized(s)
  {
    ParseIntegerNormalized(s);
    match ParseInteger(s)
    case Some(v) => if MinInt32 <= v <= MaxInt32 then Some(v) else None
    case None => None
  }

  lemma {:induction false} NatToStringDigits(n: nat)
    ensures var s := NatToString(n); s != [] && AllDigits(s) && DigitsValue(s) == n
  {
    if n >= 10 {
      NatToStringDigits(n / 10);
      var s := NatToString(n);
      assert s[..|s| - 1] == NatToString(n / 10);
    }
  }

  /** Rendering an integer and reading it back gives the same integer. */
  lemma ParseIntegerOfString(i: int)
    ensures ParseInteger(IntToString(i)) == Some(i)
  {
    if i < 0 {
      NatToStringDigits(-i);
      assert IntToString(i)[1..] == NatToString(-i);
    } else {
      NatToStringDigits(i);
    }
  }

  /** A digit string with a non-zero first digit has a positive value. */
  lemma {:induction false} LeadingDigitValue(d: string)
    requires d != [] && AllDigits(d) && d[0] != '0'
    ensures DigitsValue(d) > 0
    decreases |d|
  {
    if |d| > 1 {
      LeadingDigitValue(d[..|d| - 1]);
    }
  }

  /** A digit string without leading zeros is the rendering of its value. */
  lemma {:induction false} CanonicalDigits(d: string)
    requires d != [] && AllDigits(d) && (|d| == 1 || d[0] != '0')
    ensures NatToString(DigitsValue(d)) == d
    decreases |d|
  {
    var n := DigitsValue(d);
    if |d| == 1 {
      assert d[..0] == [] && IsDigit(d[0]);
      assert DigitsValue(d[..0]) == 0;
      assert n == d[0] as int - '0' as int;
    } else {
      var p := d[..|d| - 1];
      LeadingDigitValue(p);
      CanonicalDigits(p);
      assert d == p + [d[|d| - 1]];
    }
  }

  /** A leading zero does not change the value of a digit string. */
  lemma {:induction false} LeadingZeroValue(d: string)
    requires |d| > 1 && AllDigits(d) && d[0] == '0'
    ensures DigitsValue(d) == DigitsValue(d[1..])
    decreases |d|
  {
    var p := d[..|d| - 1];
    assert d[1..][..|d| - 2] == p[1..];
    if |p| > 1 {
      LeadingZeroValue(p);
    } else {
      assert p[..0] == [];
      assert p[1..] == [];
    }
  }

  /** The value of a digit string renders as the string without leading zeros. */
  lemma {:induction false} StripZerosValue(d: string)
    requires d != [] && AllDigits(d)
    ensures NatToString(DigitsValue(d)) == StripZeros(d)
    decreases |d|
  {
    if |d| > 1 && d[0] == '0' {
      LeadingZeroValue(d);
      StripZerosValue(d[1..]);
    } else {
      CanonicalDigits(d);
    }
  }

  /**
   * The converse of the round trip: whatever text is read as an integer is
   * that integer's rendering up to a '+' sign, leading zeros and "-0".
   */
  lemma ParseIntegerNormalized(s: string)
    ensures ParseInteger(s).Some? ==> IntToString(ParseInteger(s).value) == Normalized(s)
  {
    if ParseInteger(s).Some? && s[0] in "+-" {
      var digits := s[1..];
      StripZerosValue(digits);
      if DigitsValue(digits) > 0 {
        NatToStringDigits(DigitsValue(digits));
        assert NatToString(DigitsValue(digits)) != "0" by {
          if DigitsValue(digits) < 10 {
            assert NatToString(DigitsValue(digits))[0] != '0';
          }
        }
      }
    } else if ParseInteger(s).Some? {
      StripZerosValue(s);
    }
  }

  /** The same round trip through `Integer.parseInt`, for every Java `int`. */
  lemma ParseInt32OfString(i: Int32)
    ensures ParseInt32(IntToString(i)) == Some(i)
  {
    ParseIntegerOfString(i);
  }

  /** A rendered integer holds only a sign and digits, so never a separator. */
  lemma IntToStringChars(i: int)
    ensures forall k :: 0 <= k < |IntToString(i)| ==> IntToString(i)[k] == '-' || IsDigit(IntToString(i)[k])
    ensures IntToString(i) != []
  {
    NatToStringDigits(if i < 0 then -i else i);
  }

  // ---------------------------------------------------------------------------
  // Case-insensitive comparison
  // ---------------------------------------------------------------------------

  /** `Character.toUpperCase`, for the ASCII letters. */
  function UpperAscii(c: char): char
  {
    if 'a' <= c <= 'z' then (c as int - 32) as char else c
  }

  /** `Character.toLowerCase`, for the ASCII letters. */
  function LowerAscii(c: char): char
  {
    if 'A' <= c <= 'Z' then (c as int + 32) as char else c
  }

  /**
   * `String.equalsIgnoreCase`: the same length and, position by position,
   * the same character, the same upper case, or the same lower case of the
   * upper case.
   */
  predicate EqualsIgnoreCase(a: string, b: string)
  {
    |a| == |b| &&
    forall k :: 0 <= k < |a| ==>
      a[k] == b[k] || UpperAscii(a[k]) == UpperAscii(b[k]) ||
      LowerAscii(UpperAscii(a[k])) == LowerAscii(UpperAscii(b[k]))
  }

  /** For ASCII text the comparison is: equal after upper-casing both sides. */
  lemma EqualsIgnoreCaseIsUpperEqual(a: string, b: string)
    ensures EqualsIgnoreCase(a, b) <==>
      |a| == |b| && forall k :: 0 <= k < |a| ==> UpperAscii(a[k]) == UpperAscii(b[k])
  {
  }
}
