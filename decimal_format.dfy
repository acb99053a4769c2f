/**
 * java.text.DecimalFormat with the pattern "#,###", as the hit-count column
 * uses it: format writes a whole number with its digits grouped in threes
 * and separated by ',', and parse reads such text back. The separators are
 * those of an English locale.
 */
module DecimalFormatting {
  import opened Wrappers
  import opened JavaText

  // ---------------------------------------------------------------------------
  // format

  /** The three digits of a group, zeros included. */
  function Group3(k: nat): (r: string)
    requires k < 1000
    ensures |r| == 3 && AllDigits(r)
  {
    [DigitChar(k / 100), DigitChar(k / 10 % 10), DigitChar(k % 10)]
  }

  /** The digits of n, a ',' before every group of three counted from the right. */
  function GroupDigits(n: nat): (r: string)
    ensures |r| > 0
    decreases n
  {
    if n < 1000 then NatToString(n)
    else GroupDigits(n / 1000) + "," + Group3(n % 1000)
  }

  /** new DecimalFormat("#,###").format(n). */
  function FormatGrouped(n: int): string {
    if n < 0 then "-" + GroupDigits(-n) else GroupDigits(n)
  }

  // ---------------------------------------------------------------------------
  // parse

  predicate IsGroupingChar(c: char) {
    IsDigit(c) || c == ','
  }

  /** The longest prefix made of digits and grouping separators. */
  function IntegerPart(s: string): (r: string)
    ensures |r| <= |s| && r == s[..|r|]
    ensures forall i :: 0 <= i < |r| ==> IsGroupingChar(r[i])
    ensures |r| < |s| ==> !IsGroupingChar(s[|r|])
  {
    if s != [] && IsGroupingChar(s[0]) then [s[0]] + IntegerPart(s[1..]) else []
  }

  /** The digits of a text, in order, without anything else. */
  function DigitsOf(s: string): (r: string)
    ensures AllDigits(r) && |r| <= |s|
  {
    if s == [] then [] else (if IsDigit(s[0]) then [s[0]] else []) + DigitsOf(s[1..])
  }

  /** DecimalFormat("#,###").parse(s).longValue(): an optional '-', then digits
      with ',' anywhere among them, then optionally '.' and fraction digits,
      which the conversion to long drops; trailing text is ignored. Text that
      offers no digit at all throws ParseException (None). */
  function ParseNumber(s: string): (r: Option<int>)
    ensures r.Some? ==> |s| > 0
  {
    var negative := |s| > 0 && s[0] == '-';
    var body := if negative then s[1..] else s;
    var whole := IntegerPart(body);
    var rest := body[|whole|..];
    var digits := DigitsOf(whole);
    var fraction := |rest| >= 2 && rest[0] == '.' && IsDigit(rest[1]);
    if digits == [] && !fraction then None
    else
      var v: int := DigitsValue(digits);
      Some(if negative then -v else v)
  }

  // ---------------------------------------------------------------------------
  // Properties

  lemma {:induction false} DigitsOfAppend(a: string, b: string)
    ensures DigitsOf(a + b) == DigitsOf(a) + DigitsOf(b)
  {
    if a == [] {
      assert a + b == b;
    } else {
      var h := if IsDigit(a[0]) then [a[0]] else [];
      assert (a + b)[0] == a[0] && (a + b)[1..] == a[1..] + b;
      assert DigitsOf(a + b) == h + DigitsOf(a[1..] + b);
      DigitsOfAppend(a[1..], b);
      assert h + (DigitsOf(a[1..]) + DigitsOf(b)) == (h + DigitsOf(a[1..])) + DigitsOf(b);
    }
  }

  lemma {:induction false} DigitsOfDigits(s: string)
    requires AllDigits(s)
    ensures DigitsOf(s) == s
  {
    if s != [] {
      DigitsOfDigits(s[1..]);
    }
  }

  /** Appending a digit multiplies the value so far by 10 and adds it. */
  lemma DigitsValuePush(a: string, c: char)
    requires AllDigits(a) && IsDigit(c)
    ensures AllDigits(a + [c]) && DigitsValue(a + [c]) == 10 * DigitsValue(a) + DigitValue(c)
  {
    assert (a + [c])[..|a + [c]| - 1] == a;
  }

  lemma ThreeDigits(k: nat)
    requires k < 1000
    ensures k == 100 * (k / 100) + 10 * (k / 10 % 10) + k % 10
  {
  }

  /** Appending three digits multiplies the value so far by 1000. */
  lemma DigitsValueGroup(a: string, k: nat)
    requires AllDigits(a) && k < 1000
    ensures AllDigits(a + Group3(k)) && DigitsValue(a + Group3(k)) == DigitsValue(a) * 1000 + k
  {
    var g := Group3(k);
    var a1 := a + [g[0]];
    var a2 := a1 + [g[1]];
    assert a + g == a2 + [g[2]];
    DigitsValuePush(a, g[0]);
    DigitsValuePush(a1, g[1]);
    DigitsValuePush(a2, g[2]);
    ThreeDigits(k);
  }

  /** A ',' and a group of three digits after grouped digits: still digits
      and separators, the same first character, and three more digits. */
  lemma AppendGroup(head: string, g: string)
    requires |head| > 0 && forall i :: 0 <= i < |head| ==> IsGroupingChar(head[i])
    requires AllDigits(g)
    ensures forall i :: 0 <= i < |head + "," + g| ==> IsGroupingChar((head + "," + g)[i])
    ensures (head + "," + g)[0] == head[0]
    ensures DigitsOf(head + "," + g) == DigitsOf(head) + g
  {
    var t := head + "," + g;
    forall i | 0 <= i < |t|
      ensures IsGroupingChar(t[i])
    {
      if i < |head| {
        assert t[i] == head[i];
      } else if i > |head| {
        assert t[i] == g[i - |head| - 1];
      }
    }
    GroupDigitsOf(head, g);
  }

  lemma GroupDigitsOf(head: string, g: string)
    requires AllDigits(g)
    ensures DigitsOf(head + "," + g) == DigitsOf(head) + g
  {
    DigitsOfAppend(head + ",", g);
    DigitsOfAppend(head, ",");
    DigitsOfDigits(g);
    assert DigitsOf(",") == [];
    assert DigitsOf(head) + [] == DigitsOf(head);
  }

  /** The grouped digits are made of digits and separators only, and their
      digits, read as a number, are n. */
  lemma {:induction false} GroupDigitsValue(n: nat)
    ensures forall i :: 0 <= i < |GroupDigits(n)| ==> IsGroupingChar(GroupDigits(n)[i])
    ensures DigitsOf(GroupDigits(n)) != [] && DigitsValue(DigitsOf(GroupDigits(n))) == n
    ensures IsDigit(GroupDigits(n)[0])
    decreases n
  {
    if n < 1000 {
      NatToStringDigits(n);
      DigitsOfDigits(NatToString(n));
    } else {
      var head := GroupDigits(n / 1000);
      var g := Group3(n % 1000);
      GroupDigitsValue(n / 1000);
      AppendGroup(head, g);
      DigitsValueGroup(DigitsOf(head), n % 1000);
    }
  }

  /** Printing n without grouping is printing n / 1000, then its last three
      digits. */
  lemma NatToStringSplit(n: nat)
    requires n >= 1000
    ensures NatToString(n) == NatToString(n / 1000) + Group3(n % 1000)
  {
    var q, k := n / 1000, n % 1000;
    assert n / 10 / 10 == n / 100 && n / 100 / 10 == q;
    assert n / 100 % 10 == k / 100;
    assert n / 10 % 10 == k / 10 % 10;
    assert n % 10 == k % 10;
    assert NatToString(n / 100) == NatToString(q) + [DigitChar(k / 100)];
    assert NatToString(n / 10) == NatToString(n / 100) + [DigitChar(k / 10 % 10)];
  }

  /** Taking the separators out of the grouped text leaves n printed without
      grouping: the digits are in order and there is no leading zero. */
  lemma {:induction false} GroupDigitsDigits(n: nat)
    ensures DigitsOf(GroupDigits(n)) == NatToString(n)
    decreases n
  {
    if n < 1000 {
      NatToStringDigits(n);
      DigitsOfDigits(NatToString(n));
    } else {
      GroupDigitsDigits(n / 1000);
      GroupDigitsOf(GroupDigits(n / 1000), Group3(n % 1000));
      NatToStringSplit(n);
    }
  }

  /** A ',' stands exactly where a multiple of three digits follows it: the
      separators split the digits into threes from the right. */
  lemma {:induction false} GroupDigitsCommas(n: nat)
    ensures forall i :: 0 < i < |GroupDigits(n)| ==>
              (GroupDigits(n)[i] == ',' <==> (|GroupDigits(n)| - i) % 4 == 0)
    decreases n
  {
    var r := GroupDigits(n);
    if n < 1000 {
      NatToStringDigits(n);
      NatToStringLength(n, 3);
      assert forall i :: 0 <= i < |r| ==> IsDigit(r[i]);
    } else {
      var h := GroupDigits(n / 1000);
      var g := Group3(n % 1000);
      GroupDigitsCommas(n / 1000);
      assert r == h + "," + g;
      forall i | 0 < i < |r|
        ensures r[i] == ',' <==> (|r| - i) % 4 == 0
      {
        if i < |h| {
          assert r[i] == h[i] && |r| - i == |h| - i + 4;
          assert (h[i] == ',' <==> (|h| - i) % 4 == 0);
        } else if i == |h| {
          assert r[i] == ',' && |r| - i == 4;
        } else {
          assert r[i] == g[i - |h| - 1] && IsDigit(g[i - |h| - 1]);
          assert 1 <= |r| - i <= 3;
        }
      }
    }
  }

  /** What "#,###" prints: an optional '-', then a digit, then digits and ','
      only, a ',' exactly before each block of three digits counted from the
      right, the digits spelling the magnitude with no leading zero. */
  ghost predicate GroupedLayout(f: string, negative: bool, magnitude: nat) {
    var start := if negative then 1 else 0;
    && start < |f|
    && (f[0] == '-' <==> negative)
    && IsDigit(f[start])
    && (forall i :: start <= i < |f| ==> IsGroupingChar(f[i]))
    && (forall i :: start < i < |f| ==> (f[i] == ',' <==> (|f| - i) % 4 == 0))
    && DigitsOf(f) == NatToString(magnitude)
  }

  /** The same layout behind a minus sign. */
  lemma SignedLayout(r: string, negative: bool, magnitude: nat)
    requires GroupedLayout(r, false, magnitude)
    ensures GroupedLayout(if negative then "-" + r else r, negative, magnitude)
  {
    if negative {
      var f := "-" + r;
      assert forall i :: 1 <= i < |f| ==> f[i] == r[i - 1];
      DigitsOfAppend("-", r);
      assert DigitsOf("-") == [];
    }
  }

  /** The whole layout of new DecimalFormat("#,###").format(n), for every n. */
  lemma FormatGroupedLayout(n: int)
    ensures GroupedLayout(FormatGrouped(n), n < 0, if n < 0 then -n else n)
  {
    var a := if n < 0 then -n else n;
    GroupDigitsValue(a);
    GroupDigitsDigits(a);
    GroupDigitsCommas(a);
    SignedLayout(GroupDigits(a), n < 0, a);
  }

  /** The integer part of a text that is digits and separators throughout is
      the whole text. */
  lemma {:induction false} IntegerPartAll(s: string)
    requires forall i :: 0 <= i < |s| ==> IsGroupingChar(s[i])
    ensures IntegerPart(s) == s
  {
    if s != [] {
      IntegerPartAll(s[1..]);
    }
  }

  /** parse reads back every number format writes. */
  lemma ParseFormatGrouped(n: int)
    ensures ParseNumber(FormatGrouped(n)) == Some(n)
  {
    var a := if n < 0 then -n else n;
    var g := GroupDigits(a);
    GroupDigitsValue(a);
    IntegerPartAll(g);
    if n < 0 {
      assert FormatGrouped(n)[1..] == g;
    } else {
      assert FormatGrouped(n)[0] != '-';
    }
  }

  /** Distinct counts are written differently. */
  lemma FormatGroupedInjective(m: int, n: int)
    requires FormatGrouped(m) == FormatGrouped(n)
    ensures m == n
  {
    ParseFormatGrouped(m);
    ParseFormatGrouped(n);
  }

  /** A count is written starting with a digit or a '-' followed by a digit,
      so it is never the "--" placeholder. */
  lemma FormatGroupedNotPlaceholder(n: int)
    ensures FormatGrouped(n) != "--"
  {
    GroupDigitsValue(if n < 0 then -n else n);
    if n < 0 {
      assert FormatGrouped(n)[1] == GroupDigits(-n)[0];
    } else {
      assert FormatGrouped(n)[0] == GroupDigits(n)[0];
    }
  }

  /** Text without any digit before its first other character does not
      parse: the "--" placeholder, the empty text, a word. */
  lemma ParseNumberNoDigits()
    ensures ParseNumber("--") == None
    ensures ParseNumber("") == None
    ensures ParseNumber("n/a") == None
  {
    assert IntegerPart("-") == [];
    assert IntegerPart("n/a") == [];
  }

  /** Grouping of a seven-digit count; zero is written "0". */
  lemma GroupingExamples()
    ensures FormatGrouped(1234567) == "1,234,567"
    ensures FormatGrouped(0) == "0"
  {
    assert GroupDigits(1) == "1";
    assert GroupDigits(1234) == "1,234";
  }

  /** The integer part stops at the first character that is neither a digit
      nor a separator. */
  lemma {:induction false} IntegerPartStops(g: string, rest: string)
    requires forall i :: 0 <= i < |g| ==> IsGroupingChar(g[i])
    requires rest != [] && !IsGroupingChar(rest[0])
    ensures IntegerPart(g + rest) == g
  {
    if g == [] {
      assert g + rest == rest;
    } else {
      assert (g + rest)[0] == g[0] && (g + rest)[1..] == g[1..] + rest;
      IntegerPartStops(g[1..], rest);
    }
  }

  /** Grouped digits followed by text that starts with neither a digit nor
      a separator read as the number the digits spell. */
  lemma ParseGroupedPrefix(g: string, rest: string)
    requires forall i :: 0 <= i < |g| ==> IsGroupingChar(g[i])
    requires |g| > 0 && g[0] != '-' && DigitsOf(g) != []
    requires rest != [] && !IsGroupingChar(rest[0])
    ensures ParseNumber(g + rest) == Some(DigitsValue(DigitsOf(g)))
  {
    var s := g + rest;
    IntegerPartStops(g, rest);
    assert s[0] == g[0];
    assert s[|g|..] == rest;
  }

  /** A leading minus sign negates whatever the rest reads as. */
  lemma ParseMinus(t: string)
    requires |t| > 0 && t[0] != '-'
    ensures ParseNumber("-" + t) == if ParseNumber(t).None? then None else Some(0 - ParseNumber(t).value)
  {
    assert ("-" + t)[1..] == t;
  }

  /** A formatted count followed by text that starts with neither a digit
      nor a separator reads as the count. */
  lemma ParseFormattedPrefix(n: int, rest: string)
    requires rest != [] && !IsGroupingChar(rest[0])
    ensures ParseNumber(FormatGrouped(n) + rest) == Some(n)
  {
    if n < 0 {
      var g := GroupDigits(-n);
      ParseGroupedDigits(-n, rest);
      ParseMinus(g + rest);
      assert FormatGrouped(n) + rest == "-" + (g + rest);
    } else {
      ParseGroupedDigits(n, rest);
    }
  }

  lemma ParseGroupedDigits(a: nat, rest: string)
    requires rest != [] && !IsGroupingChar(rest[0])
    ensures |GroupDigits(a)| > 0 && IsDigit(GroupDigits(a)[0])
    ensures ParseNumber(GroupDigits(a) + rest) == Some(a)
  {
    GroupDigitsValue(a);
    ParseGroupedPrefix(GroupDigits(a), rest);
  }

  /** A fraction after a formatted count is dropped on parsing: the count
      followed by '.' and any fraction digits reads as the count. */
  lemma ParseDropsFraction(n: int, d: string)
    requires AllDigits(d)
    ensures ParseNumber(FormatGrouped(n) + "." + d) == Some(n)
  {
    ParseFormattedPrefix(n, "." + d);
    assert FormatGrouped(n) + "." + d == FormatGrouped(n) + ("." + d);
  }
}
