/**
 * The parts of the Java and Apache Commons string library that the plugin
 * relies on: StringUtils.isBlank, String.trim, Integer.parseInt,
 * Integer.toString and String.replace with an empty replacement.
 * Strings are sequences of Unicode scalar values; Java's UTF-16 code units
 * are not modelled separately.
 */
module JavaText {
  import opened Wrappers

  const MinInt: int := -0x8000_0000
  const MaxInt: int := 0x7FFF_FFFF

  /** Character.isWhitespace: the Unicode space separators other than the
      no-break spaces, the line and paragraph separators, and the control
      characters U+0009..U+000D and U+001C..U+001F. The separators are those
      of Unicode 6.2, which Java 8 follows; U+180E MONGOLIAN VOWEL SEPARATOR
      is still a space separator there. */
  predicate IsJavaWhitespace(c: char) {
    || ('\t' <= c <= '\r')
    || ('\U{1C}' <= c <= ' ')
    || c == '\U{1680}' || c == '\U{180E}'
    || ('\U{2000}' <= c <= '\U{2006}')
    || ('\U{2008}' <= c <= '\U{200A}')
    || c == '\U{2028}' || c == '\U{2029}'
    || c == '\U{205F}' || c == '\U{3000}'
  }

  /** StringUtils.isBlank: null, empty, or whitespace only. */
  predicate IsBlank(s: Option<string>) {
    s.None? || forall i :: 0 <= i < |s.value| ==> IsJavaWhitespace(s.value[i])
  }

  /** Blank and not blank text under Java 8: the Mongolian vowel separator and
      the ideographic space are blank, a no-break space is not. */
  lemma IsBlankExamples()
    ensures IsBlank(Some(MongolianVowelSeparator))
    ensures IsBlank(Some(IdeographicSpaces))
    ensures !IsBlank(Some(NoBreakSpace))
  {
    assert NoBreakSpace[0] == '\U{A0}';
  }

  const MongolianVowelSeparator := "\U{180E}"
  const IdeographicSpaces := "\U{3000}\U{3000}"
  const NoBreakSpace := "\U{A0}"

  // ---------------------------------------------------------------------------
  // String.trim: strips every leading and trailing character <= U+0020.
  // (A different notion from IsJavaWhitespace: U+001C counts for both, but
  // U+0000 is trimmed and not blank, and U+3000 is blank and not trimmed.)

  predicate AllLow(s: string) {
    forall i :: 0 <= i < |s| ==> s[i] <= ' '
  }

  /** Neither end of s is a character that trim would strip. */
  predicate IsTrimmed(s: string) {
    s == [] || (s[0] > ' ' && s[|s| - 1] > ' ')
  }

  /** r is s with only characters <= U+0020 removed from its two ends. */
  ghost predicate IsCoreOf(r: string, s: string) {
    exists a :: 0 <= a <= |s| - |r| && AllLow(s[..a]) && s[a..a + |r|] == r && AllLow(s[a + |r|..])
  }

  function TrimStart(s: string): (r: string)
    ensures |r| <= |s| && r == s[|s| - |r|..]
    ensures AllLow(s[..|s| - |r|])
    ensures r == [] || r[0] > ' '
  {
    if |s| > 0 && s[0] <= ' ' then TrimStart(s[1..]) else s
  }

  function TrimEnd(s: string): (r: string)
    ensures |r| <= |s| && r == s[..|r|]
    ensures AllLow(s[|r|..])
    ensures r == [] || r[|r| - 1] > ' '
  {
    if |s| > 0 && s[|s| - 1] <= ' ' then TrimEnd(s[..|s| - 1]) else s
  }

  /** String.trim. */
  function Trim(s: string): (r: string)
    ensures IsTrimmed(r)
    ensures IsCoreOf(r, s)
  {
    var m := TrimStart(s);
    var r := TrimEnd(m);
    CoreOfCore(s, m, r);
    r
  }

  /** Stripping the start and then the end of what is left strips both ends. */
  lemma CoreOfCore(s: string, m: string, r: string)
    requires |m| <= |s| && m == s[|s| - |m|..] && AllLow(s[..|s| - |m|])
    requires |r| <= |m| && r == m[..|r|] && AllLow(m[|r|..])
    ensures IsCoreOf(r, s)
  {
    var a := |s| - |m|;
    assert s[a..a + |r|] == r;
    assert s[a + |r|..] == m[|r|..];
  }

  /** A string that trim leaves alone. */
  lemma TrimFixesTrimmed(s: string)
    requires IsTrimmed(s)
    ensures Trim(s) == s
  {
  }

  /** Trimming twice is trimming once. */
  lemma TrimIdempotent(s: string)
    ensures Trim(Trim(s)) == Trim(s)
  {
    TrimFixesTrimmed(Trim(s));
  }

  // ---------------------------------------------------------------------------
  // Decimal digits

  predicate IsDigit(c: char) {
    '0' <= c <= '9'
  }

  predicate AllDigits(s: string) {
    forall i :: 0 <= i < |s| ==> IsDigit(s[i])
  }

  function DigitValue(c: char): (d: nat)
    requires IsDigit(c)
    ensures d < 10
  {
    c as int - '0' as int
  }

  function DigitChar(d: nat): (c: char)
    requires d < 10
    ensures IsDigit(c) && DigitValue(c) == d
  {
    ('0' as int + d) as char
  }

  function Pow10(k: nat): (p: nat)
    ensures p >= 1
  {
    if k == 0 then 1 else 10 * Pow10(k - 1)
  }

  /** The value of a string of decimal digits, most significant first. */
  function DigitsValue(s: string): (v: nat)
    requires AllDigits(s)
    ensures v < Pow10(|s|)
  {
    if s == [] then 0 else 10 * DigitsValue(s[..|s| - 1]) + DigitValue(s[|s| - 1])
  }

  /** Leading zeros do not change the value of a digit string. */
  lemma {:induction false} DigitsValueLeadingZeros(z: string, s: string)
    requires forall i :: 0 <= i < |z| ==> z[i] == '0'
    requires AllDigits(s)
    ensures AllDigits(z + s) && DigitsValue(z + s) == DigitsValue(s)
  {
    if s == [] {
      assert z + s == z;
      ZerosValue(z);
    } else {
      var s' := s[..|s| - 1];
      assert (z + s)[..|z + s| - 1] == z + s';
      DigitsValueLeadingZeros(z, s');
    }
  }

  lemma {:induction false} ZerosValue(z: string)
    requires forall i :: 0 <= i < |z| ==> z[i] == '0'
    ensures AllDigits(z) && DigitsValue(z) == 0
  {
    if z != [] {
      ZerosValue(z[..|z| - 1]);
    }
  }

  /** Integer.toString of a non-negative number. */
  function NatToString(n: nat): (r: string)
    ensures |r| > 0
  {
    if n < 10 then [DigitChar(n)] else NatToString(n / 10) + [DigitChar(n % 10)]
  }

  /** NatToString prints decimal digits with no leading zero, and their value
      is the number printed. */
  lemma {:induction false} NatToStringDigits(n: nat)
    ensures AllDigits(NatToString(n)) && DigitsValue(NatToString(n)) == n
    ensures NatToString(n)[0] == '0' ==> n == 0
  {
    if n >= 10 {
      var p := NatToString(n / 10);
      NatToStringDigits(n / 10);
      assert NatToString(n)[..|p|] == p;
    }
  }

  /** The number of digits NatToString prints is the least k with n < 10^k. */
  lemma {:induction false} NatToStringLength(n: nat, k: nat)
    requires k > 0
    ensures |NatToString(n)| <= k <==> n < Pow10(k)
  {
    if n >= 10 && k > 1 {
      NatToStringLength(n / 10, k - 1);
      assert n < Pow10(k) <==> n / 10 < Pow10(k - 1);
    }
  }

  /** Integer.toString, and String.format("%d") in an English default locale
      (other locales may print their own digits). */
  function IntToString(n: int): (r: string)
    ensures |r| > 0
  {
    if n < 0 then "-" + NatToString(-n) else NatToString(n)
  }

  // ---------------------------------------------------------------------------
  // Character.digit(c, 10)

  /** The code point of the digit zero of every run of ten decimal digits
      (general category Nd) below U+10000, in Unicode 6.2, the version Java 8
      follows. A character beyond U+FFFF is two UTF-16 code units in Java,
      and Character.digit finds no digit in either of them. */
  const DigitZeros: seq<int> := [
    0x0030, 0x0660, 0x06F0, 0x07C0, 0x0966, 0x09E6, 0x0A66, 0x0AE6, 0x0B66,
    0x0BE6, 0x0C66, 0x0CE6, 0x0D66, 0x0E50, 0x0ED0, 0x0F20, 0x1040, 0x1090,
    0x17E0, 0x1810, 0x1946, 0x19D0, 0x1A80, 0x1A90, 0x1B50, 0x1BB0, 0x1C40,
    0x1C50, 0xA620, 0xA8D0, 0xA900, 0xA9D0, 0xAA50, 0xABF0, 0xFF10]

  /** Each run starts at least ten code points after the one before it. */
  predicate Spaced(zeros: seq<int>) {
    forall i :: 0 <= i < |zeros| - 1 ==> zeros[i] + 10 <= zeros[i + 1]
  }

  /** The value of code as a digit of the first run that holds it. */
  function DigitIn(code: int, zeros: seq<int>): (r: Option<nat>)
    ensures r.Some? ==> r.value < 10
  {
    if zeros == [] then None
    else if zeros[0] <= code < zeros[0] + 10 then Some(code - zeros[0])
    else DigitIn(code, zeros[1..])
  }

  /** A digit found lies in one of the runs. */
  lemma {:induction false} DigitInFound(code: int, zeros: seq<int>)
    requires DigitIn(code, zeros).Some?
    ensures exists i :: 0 <= i < |zeros| && zeros[i] <= code < zeros[i] + 10
  {
    if !(zeros[0] <= code < zeros[0] + 10) {
      DigitInFound(code, zeros[1..]);
      var i :| 0 <= i < |zeros[1..]| && zeros[1..][i] <= code < zeros[1..][i] + 10;
      assert zeros[i + 1] == zeros[1..][i];
    }
  }

  lemma {:induction false} SpacedApart(zeros: seq<int>, i: nat, j: nat)
    requires Spaced(zeros) && i < j < |zeros|
    ensures zeros[i] + 10 <= zeros[j]
    decreases j - i
  {
    if i + 1 < j {
      SpacedApart(zeros, i + 1, j);
    }
  }

  /** With runs that do not overlap, a code point inside run i is the digit
      of value code - zeros[i]. */
  lemma {:induction false} DigitInRun(code: int, zeros: seq<int>, i: nat)
    requires Spaced(zeros) && i < |zeros| && zeros[i] <= code < zeros[i] + 10
    ensures DigitIn(code, zeros) == Some(code - zeros[i])
    decreases i
  {
    if i > 0 {
      SpacedApart(zeros, 0, i);
      assert zeros[1..][i - 1] == zeros[i];
      DigitInRun(code, zeros[1..], i - 1);
    }
  }

  lemma SpacedTail(zeros: seq<int>)
    requires Spaced(zeros) && zeros != []
    ensures Spaced(zeros[1..])
  {
    forall i | 0 <= i < |zeros[1..]| - 1
      ensures zeros[1..][i] + 10 <= zeros[1..][i + 1]
    {
      assert zeros[1..][i] == zeros[i + 1] && zeros[1..][i + 1] == zeros[i + 2];
    }
  }

  /** Spaced runs hold nothing below the first of them. */
  lemma {:induction false} DigitInBelow(code: int, zeros: seq<int>)
    requires Spaced(zeros) && (zeros == [] || code < zeros[0])
    ensures DigitIn(code, zeros) == None
  {
    if zeros != [] {
      SpacedTail(zeros);
      if |zeros| > 1 {
        assert zeros[0] + 10 <= zeros[1] && zeros[1..][0] == zeros[1];
      }
      DigitInBelow(code, zeros[1..]);
    }
  }

  lemma DigitZerosSpaced()
    ensures Spaced(DigitZeros)
  {
  }

  /** Character.digit(c, 10): the value of a decimal digit of any script, and
      None (Java's -1) for every other character. */
  function DecimalDigit(c: char): (r: Option<nat>)
    ensures r.Some? ==> r.value < 10
    ensures IsDigit(c) ==> r == Some(DigitValue(c))
  {
    DigitIn(c as int, DigitZeros)
  }

  /** A character is a decimal digit exactly when one of the runs holds it,
      and its value is its offset from that run's zero. */
  lemma DecimalDigitRuns(c: char)
    ensures DecimalDigit(c).Some? <==>
              exists i :: 0 <= i < |DigitZeros| && DigitZeros[i] <= c as int < DigitZeros[i] + 10
    ensures forall i :: 0 <= i < |DigitZeros| && DigitZeros[i] <= c as int < DigitZeros[i] + 10 ==>
              DecimalDigit(c) == Some(c as int - DigitZeros[i])
  {
    DigitZerosSpaced();
    if DecimalDigit(c).Some? {
      DigitInFound(c as int, DigitZeros);
    }
    forall i | 0 <= i < |DigitZeros| && DigitZeros[i] <= c as int < DigitZeros[i] + 10
      ensures DecimalDigit(c) == Some(c as int - DigitZeros[i])
    {
      DigitInRun(c as int, DigitZeros, i);
    }
  }

  predicate IsDecimalDigit(c: char) {
    DecimalDigit(c).Some?
  }

  predicate AllDecimalDigits(s: string) {
    forall i :: 0 <= i < |s| ==> IsDecimalDigit(s[i])
  }

  /** The value of a string of decimal digits of any script, most significant
      first, as parseInt accumulates it. */
  function DecimalValue(s: string): (v: nat)
    requires AllDecimalDigits(s)
    ensures v < Pow10(|s|)
  {
    if s == [] then 0 else 10 * DecimalValue(s[..|s| - 1]) + DecimalDigit(s[|s| - 1]).value
  }

  /** On the ASCII digits parseInt and toString agree on the value. */
  lemma {:induction false} DecimalValueAscii(s: string)
    requires AllDigits(s)
    ensures AllDecimalDigits(s) && DecimalValue(s) == DigitsValue(s)
  {
    if s != [] {
      DecimalValueAscii(s[..|s| - 1]);
    }
  }

  /** Integer.parseInt(s, 10): an optional sign, at least one digit (of any
      script, as Character.digit reads them), and a value in the 32-bit range;
      anything else throws NumberFormatException (None). */
  function ParseInt(s: string): (r: Option<int>)
    ensures r.Some? ==> MinInt <= r.value <= MaxInt
    ensures r.Some? ==> |s| > 0
  {
    if |s| == 0 then None
    else
      var digits := if s[0] == '-' || s[0] == '+' then s[1..] else s;
      if |digits| == 0 || !AllDecimalDigits(digits) then None
      else
        var v: int := if s[0] == '-' then 0 - DecimalValue(digits) else DecimalValue(digits);
        if MinInt <= v <= MaxInt then Some(v) else None
  }

  /** Integer.parseInt reads back what Integer.toString printed. */
  lemma ParseIntToString(n: int)
    requires MinInt <= n <= MaxInt
    ensures ParseInt(IntToString(n)) == Some(n)
  {
    var s := IntToString(n);
    NatToStringDigits(if n < 0 then -n else n);
    DecimalValueAscii(NatToString(if n < 0 then -n else n));
    if n < 0 {
      assert s[1..] == NatToString(-n);
    }
  }

  /** ASCII digits read as toString writes them. */
  lemma ParseIntAscii(s: string)
    requires |s| > 0 && AllDigits(s) && DigitsValue(s) <= MaxInt
    ensures ParseInt(s) == Some(DigitsValue(s))
  {
    DecimalValueAscii(s);
  }

  /** Below the Arabic-Indic digits only '0'..'9' are digits: no sign, no
      '.', no Latin letter. */
  lemma AsciiNonDigit(c: char)
    requires c as int < 0x660 && !IsDigit(c)
    ensures DecimalDigit(c) == None
  {
    DigitZerosSpaced();
    assert DigitZeros[0] == 0x30 && DigitZeros[1..][0] == 0x660;
    if c as int < 0x30 {
      DigitInBelow(c as int, DigitZeros);
    } else {
      SpacedTail(DigitZeros);
      DigitInBelow(c as int, DigitZeros[1..]);
    }
  }

  /** parseInt accepts an explicit '+' sign and means the same by it. */
  lemma ParseIntPlusSign(d: string)
    requires |d| > 0 && AllDecimalDigits(d)
    ensures ParseInt("+" + d) == ParseInt(d)
  {
    AsciiNonDigit('+');
    AsciiNonDigit('-');
    assert ("+" + d)[1..] == d;
  }

  /** A digit of another script, by the run that holds it. */
  lemma DigitOfRun(c: char, i: nat)
    requires i < |DigitZeros| && DigitZeros[i] <= c as int < DigitZeros[i] + 10
    ensures DecimalDigit(c) == Some(c as int - DigitZeros[i])
  {
    DecimalDigitRuns(c);
  }

  /** parseInt reads the digits of other scripts: fullwidth five. */
  lemma ParseIntFullwidth()
    ensures ParseInt(FullwidthFive) == Some(5)
  {
    assert DigitZeros[34] == 0xFF10;
    DigitOfRun(FullwidthFive[0], 34);
    AsciiNonDigit('-');
    AsciiNonDigit('+');
  }

  /** Twelve in Arabic-Indic digits. */
  lemma ParseIntArabicIndic()
    ensures ParseInt(ArabicIndicTwelve) == Some(12)
  {
    var s := ArabicIndicTwelve;
    assert DigitZeros[1] == 0x660;
    DigitOfRun(s[0], 1);
    DigitOfRun(s[1], 1);
    AsciiNonDigit('-');
    AsciiNonDigit('+');
    assert s[..1] == [s[0]];
  }

  /** Minus one in Devanagari. */
  lemma ParseIntDevanagari()
    ensures ParseInt(DevanagariMinusOne) == Some(-1)
  {
    var s := DevanagariMinusOne;
    assert DigitZeros[4] == 0x966;
    DigitOfRun(s[1], 4);
    assert s[1..] == [s[1]];
  }

  const FullwidthFive := "\U{FF15}"
  const ArabicIndicTwelve := "\U{0661}\U{0662}"
  const DevanagariMinusOne := "-\U{0967}"

  // ---------------------------------------------------------------------------
  // String.replace(target, "")

  predicate OccursAt(s: string, t: string, i: nat) {
    i + |t| <= |s| && s[i..i + |t|] == t
  }

  predicate Occurs(s: string, t: string) {
    exists i: nat | i + |t| <= |s| :: OccursAt(s, t, i)
  }

  /** s.replace(t, ""): deletes the occurrences of t found scanning left to
      right, without rescanning what the deletions bring together. */
  function RemoveAll(s: string, t: string): (r: string)
    requires |t| > 0
    ensures |r| <= |s|
    decreases |s|
  {
    if |s| < |t| then s
    else if s[..|t|] == t then RemoveAll(s[|t|..], t)
    else [s[0]] + RemoveAll(s[1..], t)
  }

  /** replace deletes something exactly when the target occurs. */
  lemma {:induction false} RemoveAllChangesIffOccurs(s: string, t: string)
    requires |t| > 0
    ensures RemoveAll(s, t) == s <==> !Occurs(s, t)
    decreases |s|
  {
    if |s| < |t| {
      assert !Occurs(s, t);
    } else if s[..|t|] == t {
      assert OccursAt(s, t, 0);
    } else {
      assert !OccursAt(s, t, 0);
      RemoveAllChangesIffOccurs(s[1..], t);
      if Occurs(s, t) {
        var i: nat :| OccursAt(s, t, i);
        assert OccursAt(s, t, i);
        assert 1 <= i;
        var s1 := s[1..];
        assert s1[i - 1..i - 1 + |t|] == s[i..i + |t|];
        assert OccursAt(s1, t, i - 1);
      } else {
        forall j: nat | OccursAt(s[1..], t, j) ensures false {
          assert s[j + 1..j + 1 + |t|] == s[1..][j..j + |t|];
          assert OccursAt(s, t, j + 1);
        }
      }
    }
  }

  /** A leading occurrence of the target is deleted and the scan resumes after it. */
  lemma RemoveAllLeading(t: string, x: string)
    requires |t| > 0
    ensures RemoveAll(t + x, t) == RemoveAll(x, t)
  {
    assert (t + x)[..|t|] == t;
    assert (t + x)[|t|..] == x;
  }
}
