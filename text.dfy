/**
  ASCII models of the Python string builtins the two timetable tools rely on:
  `str.strip()`, `str.split(sep)` with an explicit separator, `str.isdigit()`,
  `int()` on a stripped string and `str.upper()`. `NatToString`, the decimal
  form of a natural number, is not used by the tools; it serves to state what
  `int()` reads back.
*/
module Text {
  import opened Wrappers

  /**
    The ASCII characters that `str.strip()` removes, those `str.isspace()`
    holds of: space, tab to carriage return, and the separators U+001C to U+001F.
  */
  predicate IsSpace(c: char) {
    c == ' ' || '\t' <= c <= '\r' || '\U{001C}' <= c <= '\U{001F}'
  }

  predicate AllSpace(s: string) {
    forall i :: 0 <= i < |s| ==> IsSpace(s[i])
  }

  /** A string with no whitespace at either end, as `str.strip()` leaves it. */
  predicate IsStripped(s: string) {
    s == [] || (!IsSpace(s[0]) && !IsSpace(s[|s| - 1]))
  }

  /** How many whitespace characters `s` starts with. */
  function LeadingSpaces(s: string): (n: nat)
    ensures n <= |s|
    ensures forall i :: 0 <= i < n ==> IsSpace(s[i])
    ensures n < |s| ==> !IsSpace(s[n])
  {
    if s != [] && IsSpace(s[0]) then 1 + LeadingSpaces(s[1..]) else 0
  }

  /** How many whitespace characters `s` ends with. */
  function TrailingSpaces(s: string): (n: nat)
    ensures n <= |s|
    ensures forall i :: |s| - n <= i < |s| ==> IsSpace(s[i])
    ensures n < |s| ==> !IsSpace(s[|s| - 1 - n])
  {
    if s != [] && IsSpace(s[|s| - 1]) then 1 + TrailingSpaces(s[..|s| - 1]) else 0
  }

  /**
    `str.strip()`: the slice of `s` between its leading and its trailing
    whitespace, which has no whitespace at either end, or nothing when `s`
    is whitespace only.
  */
  function Strip(s: string): (r: string)
    ensures IsStripped(r)
    ensures |r| <= |s|
    ensures r == [] <==> AllSpace(s)
  {
    var a, b := LeadingSpaces(s), |s| - TrailingSpaces(s);
    if a < b then s[a..b] else []
  }

  /** Only whitespace is removed: `s` is the stripped string with whitespace around it. */
  lemma StripRemovesOnlySpace(s: string)
    ensures var r, a := Strip(s), LeadingSpaces(s);
      a + |r| <= |s| && s == s[..a] + r + s[a + |r|..] && AllSpace(s[..a]) && AllSpace(s[a + |r|..])
  {
    var r, a, b := Strip(s), LeadingSpaces(s), |s| - TrailingSpaces(s);
    assert AllSpace(s[..a]);
    if a < b {
      assert r == s[a..b];
      assert AllSpace(s[b..]);
    } else {
      assert AllSpace(s[a..]);
    }
    SliceThree(s, a, a + |r|);
  }

  lemma SliceThree(s: string, i: int, j: int)
    requires 0 <= i <= j <= |s|
    ensures s == s[..i] + s[i..j] + s[j..]
  {
  }

  lemma StripFixpoint(s: string)
    requires IsStripped(s)
    ensures Strip(s) == s
  {
  }

  lemma StripIdempotent(s: string)
    ensures Strip(Strip(s)) == Strip(s)
  {
    StripFixpoint(Strip(s));
  }

  /** Removing whitespace never removes a character that is not whitespace. */
  lemma CountStrip(s: string, c: char)
    requires !IsSpace(c)
    ensures Count(Strip(s), c) == Count(s, c)
  {
    var r, a := Strip(s), LeadingSpaces(s);
    StripRemovesOnlySpace(s);
    CountAppend(s[..a] + r, s[a + |r|..], c);
    CountAppend(s[..a], r, c);
    CountAbsent(s[..a], c);
    CountAbsent(s[a + |r|..], c);
  }

  /** Number of occurrences of `c` in `s`. */
  function Count(s: string, c: char): (n: nat)
    ensures n <= |s|
    ensures n == 0 <==> c !in s
  {
    if s == [] then 0 else (if s[0] == c then 1 else 0) + Count(s[1..], c)
  }

  lemma {:induction false} CountAppend(a: string, b: string, c: char)
    ensures Count(a + b, c) == Count(a, c) + Count(b, c)
  {
    if a != [] {
      assert (a + b)[1..] == a[1..] + b;
      CountAppend(a[1..], b, c);
    } else {
      assert a + b == b;
    }
  }

  lemma CountAbsent(s: string, c: char)
    requires AllSpace(s) && !IsSpace(c)
    ensures Count(s, c) == 0
  {
    assert c !in s;
  }

  /**
    `s.split(sep)`: the pieces between separators, empty pieces kept, so there is
    always one piece more than there are separators.
  */
  function Split(s: string, sep: char): (parts: seq<string>)
    ensures |parts| == Count(s, sep) + 1
  {
    if s == [] then [""]
    else
      var rest := Split(s[1..], sep);
      if s[0] == sep then [""] + rest
      else [[s[0]] + rest[0]] + rest[1..]
  }

  /** No piece of a split holds the separator. */
  lemma {:induction false} SplitPiecesFree(s: string, sep: char)
    ensures forall i :: 0 <= i < |Split(s, sep)| ==> sep !in Split(s, sep)[i]
  {
    if s != [] {
      SplitPiecesFree(s[1..], sep);
    }
  }

  /** `sep.join(parts)`. */
  function Join(parts: seq<string>, sep: char): (s: string)
    requires |parts| >= 1
  {
    if |parts| == 1 then parts[0] else parts[0] + [sep] + Join(parts[1..], sep)
  }

  /** Joining the pieces of a split gives back the string. */
  lemma {:induction false} JoinSplit(s: string, sep: char)
    ensures Join(Split(s, sep), sep) == s
  {
    if s != [] {
      var rest := Split(s[1..], sep);
      JoinSplit(s[1..], sep);
      if s[0] == sep {
        assert ([""] + rest)[1..] == rest;
      } else if |rest| > 1 {
        var parts := [[s[0]] + rest[0]] + rest[1..];
        assert parts[1..] == rest[1..];
        assert Join(rest, sep) == rest[0] + [sep] + Join(rest[1..], sep);
      }
    }
  }

  lemma {:induction false} SplitNoSeparator(a: string, sep: char)
    requires sep !in a
    ensures Split(a, sep) == [a]
  {
    if a != [] {
      SplitNoSeparator(a[1..], sep);
      assert [a[0]] + a[1..] == a;
    }
  }

  lemma {:induction false} SplitAfter(a: string, t: string, sep: char)
    requires sep !in a
    ensures Split(a + [sep] + t, sep) == [a] + Split(t, sep)
  {
    var s := a + [sep] + t;
    if a == [] {
      assert s[1..] == t;
    } else {
      assert s[0] == a[0] && a[0] != sep;
      assert s[1..] == a[1..] + [sep] + t;
      SplitAfter(a[1..], t, sep);
      var rest := Split(s[1..], sep);
      assert rest == [a[1..]] + Split(t, sep);
      assert Split(s, sep) == [[s[0]] + rest[0]] + rest[1..];
      assert [a[0]] + a[1..] == a;
    }
  }

  /** Splitting a join of separator-free pieces gives back the pieces. */
  lemma {:induction false} SplitJoin(parts: seq<string>, sep: char)
    requires |parts| >= 1
    requires forall p :: p in parts ==> sep !in p
    ensures Split(Join(parts, sep), sep) == parts
  {
    if |parts| == 1 {
      SplitNoSeparator(parts[0], sep);
    } else {
      assert parts[0] in parts;
      assert forall p :: p in parts[1..] ==> p in parts;
      SplitJoin(parts[1..], sep);
      SplitAfter(parts[0], Join(parts[1..], sep), sep);
      assert [parts[0]] + parts[1..] == parts;
    }
  }

  predicate IsDigit(c: char) {
    '0' <= c <= '9'
  }

  /**
    `str.isdigit()` over ASCII: non-empty and every character a decimal digit.
    Such a string is left alone by `strip()` and holds no `.` or `,`.
  */
  predicate IsDigits(s: string)
    ensures IsDigits(s) ==> IsStripped(s) && '.' !in s && ',' !in s
  {
    s != [] && forall i :: 0 <= i < |s| ==> IsDigit(s[i])
  }

  /** The value of a string of decimal digits, leading zeros allowed. */
  function DigitsValue(s: string): nat
    requires forall i :: 0 <= i < |s| ==> IsDigit(s[i])
  {
    if s == [] then 0
    else
      assert IsDigit(s[|s| - 1]);
      10 * DigitsValue(s[..|s| - 1]) + (s[|s| - 1] as int - '0' as int)
  }

  function DigitChar(d: nat): (c: char)
    requires d < 10
    ensures IsDigit(c) && c as int - '0' as int == d
  {
    ('0' as int + d) as char
  }

  /** `str(n)` for a natural number: its decimal digits, whose value is `n`. */
  function NatToString(n: nat): (s: string)
    ensures IsDigits(s)
    ensures DigitsValue(s) == n
  {
    if n < 10 then [DigitChar(n)]
    else
      var s := NatToString(n / 10) + [DigitChar(n % 10)];
      assert s[..|s| - 1] == NatToString(n / 10);
      s
  }

  /**
    `int(s)` for a string already stripped: an optional sign and at least one
    decimal digit; anything else is the `ValueError` case, `None`. Whatever is
    accepted starts with a digit, or with a sign followed by at least one more
    character, holds only digits after its first character, and is negative
    only with a leading minus.
  */
  function ParseInt(s: string): (r: Option<int>)
    ensures r.Some? ==> s != [] && forall i :: 1 <= i < |s| ==> IsDigit(s[i])
    ensures r.Some? ==> IsDigit(s[0]) || (|s| >= 2 && (s[0] == '+' || s[0] == '-'))
    ensures r.Some? && r.value < 0 ==> s[0] == '-'
  {
    if IsDigits(s) then Some(DigitsValue(s))
    else if |s| > 0 && s[0] == '+' && IsDigits(s[1..]) then Some(DigitsValue(s[1..]))
    else if |s| > 0 && s[0] == '-' && IsDigits(s[1..]) then Some(-(DigitsValue(s[1..]) as int))
    else None
  }

  /** A leading zero does not change the value of a digit string. */
  lemma {:induction false} DigitsValueLeadingZero(d: string)
    requires forall i :: 0 <= i < |d| ==> IsDigit(d[i])
    ensures DigitsValue("0" + d) == DigitsValue(d)
  {
    if d != [] {
      var z := "0" + d;
      assert z[..|z| - 1] == "0" + d[..|d| - 1];
      assert z[|z| - 1] == d[|d| - 1];
      DigitsValueLeadingZero(d[..|d| - 1]);
    }
  }

  /**
    `int()` with a sign and with leading zeros: `+n` reads as `n`, `-n` as its
    negation, and a zero in front of digits changes nothing.
  */
  lemma ParseIntSigned(n: nat, d: string)
    ensures ParseInt("+" + NatToString(n)) == Some(n)
    ensures ParseInt("-" + NatToString(n)) == Some(-(n as int))
    ensures IsDigits(d) ==> ParseInt("0" + d) == ParseInt(d)
  {
    var s := NatToString(n);
    assert ("+" + s)[1..] == s && ("-" + s)[1..] == s;
    if IsDigits(d) {
      DigitsValueLeadingZero(d);
      assert IsDigits("0" + d);
    }
  }

  /** A sign in front of any digit string, leading zeros included: `+d` reads as `d`, `-d` as its negation. */
  lemma ParseIntSignedDigits(d: string)
    requires IsDigits(d)
    ensures ParseInt("+" + d) == ParseInt(d)
    ensures ParseInt("-" + d) == Some(-ParseInt(d).value)
  {
    assert ("+" + d)[1..] == d && ("-" + d)[1..] == d;
  }

  /** Reading back the decimal form of a natural number gives the number. */
  lemma ParseIntOfNat(n: nat)
    ensures ParseInt(NatToString(n)) == Some(n)
  {
  }

  function UpperChar(c: char): char {
    if 'a' <= c <= 'z' then (c as int - 32) as char else c
  }

  /** `str.upper()` over ASCII: lower-case letters raised, everything else kept. */
  function Upper(s: string): (r: string)
    ensures |r| == |s|
    ensures forall i :: 0 <= i < |r| ==> r[i] == UpperChar(s[i])
    ensures forall i :: 0 <= i < |r| ==> !('a' <= r[i] <= 'z')
  {
    if s == [] then [] else [UpperChar(s[0])] + Upper(s[1..])
  }

  /** A string with no lower-case letter is its own upper case. */
  lemma UpperFixpoint(s: string)
    requires forall i :: 0 <= i < |s| ==> !('a' <= s[i] <= 'z')
    ensures Upper(s) == s
  {
  }
}
